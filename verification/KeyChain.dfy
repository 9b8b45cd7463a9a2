/** KeyUpdates go along a chain of secrets, and no nonce is ever used twice with one key. */
module KeyChains {
  import opened Results
  import opened ByteStrings
  import opened Primitives
  import opened RecordProtection
  import opened RecordReception
  import opened NonceUniqueness
  import opened Defragmentation
  import opened Messaging
  import opened KeySchedule
  import opened Reading
  import opened Sending
  import opened Delivery
  import opened Channel

  /** The k-th secret after the given one (section 7.2 of RFC 8446). */
  function ChainSecret(c: Crypto, suite: Suite, secret: Bytes, k: nat): Bytes {
    if k == 0 then secret
    else
      c.expandLabel(suite.prf, ChainSecret(c, suite, secret, k - 1), Ascii("traffic upd"), [],
                    if suite.prf.Sha256? then 32 else 48)
  }

  /** The key and the initialisation vector that belong to a secret (section 7.3 of RFC 8446). */
  function KeyOf(c: Crypto, suite: Suite, secret: Bytes): Bytes {
    c.expandLabel(suite.prf, secret, Ascii("key"), [], suite.keyLength)
  }

  function IvOf(c: Crypto, suite: Suite, secret: Bytes): Bytes {
    c.expandLabel(suite.prf, secret, Ascii("iv"), [], 12)
  }

  /** A state under a secret. */
  predicate Under(c: Crypto, suite: Suite, secret: Bytes, st: CState) {
    && st.mac.None? && st.enc == AeadCipher(Aead(suite.cipher, KeyOf(c, suite, secret), suite.tagLength, 12))
    && st.fixedNonce == IvOf(c, suite, secret)
  }

  lemma NextIsOnChain(c: Crypto, suite: Suite, secret: Bytes, k: nat)
    ensures NextSecret(c, suite, ChainSecret(c, suite, secret, k)) == ChainSecret(c, suite, secret, k + 1)
  {
    assert Ascii("traffic upd") == TRAFFIC_UPD;
  }

  lemma FreshUnder(c: Crypto, suite: Suite, secret: Bytes)
    ensures Under(c, suite, secret, TrafficState(c, suite, secret)) && TrafficState(c, suite, secret).seqnum == 0
  {
    assert Ascii("key") == KEY && Ascii("iv") == IV;
  }

  function Updates(events: seq<Event>): nat {
    if events == [] then 0 else (if events[0].Update? then 1 else 0) + Updates(events[1..])
  }

  lemma {:induction false} UpdatesAppend(a: seq<Event>, b: seq<Event>)
    ensures Updates(a + b) == Updates(a) + Updates(b)
  {
    if a == [] {
      assert a + b == b;
    } else {
      UpdatesAppend(a[1..], b);
      assert (a + b)[0] == a[0] && (a + b)[1..] == a[1..] + b;
    }
  }

  //
  // Runs of a writer
  //

  /** A message to be sent, under the settings of the moment. */
  datatype Job = Job(settings: Settings, ev: Event)

  predicate Sizes(jobs: seq<Job>) {
    forall i :: 0 <= i < |jobs| ==> jobs[i].settings.recordSize >= 1
  }

  /** Send one message after the other, up to the first failure. */
  function SendAll(c: Crypto, suite: Suite, w: Writer, jobs: seq<Job>): (d: Dispatch)
    requires Correct(c) && Keyed(w.st) && Sizes(jobs)
    decreases |jobs|
  {
    hide Correct, SendEvent, Keyed;
    if jobs == [] then Dispatch(Ok(()), w, [])
    else
      var d := SendEvent(c, suite, jobs[0].settings, w, jobs[0].ev);
      if d.res.Err? then d
      else
        StaysKeyed(c, suite, jobs[0].settings, w, jobs[0].ev);
        var later := SendAll(c, suite, d.writer, jobs[1..]);
        Dispatch(later.res, later.writer, d.records + later.records)
  }

  lemma StaysKeyed(c: Crypto, suite: Suite, settings: Settings, w: Writer, ev: Event)
    requires Correct(c) && Keyed(w.st) && settings.recordSize >= 1 && SendEvent(c, suite, settings, w, ev).res.Ok?
    ensures Keyed(SendEvent(c, suite, settings, w, ev).writer.st)
  {
    hide Correct, SendPieces;
    PiecesAdvance(c, settings, w.st, TypeOf(ev), Fragments(settings.recordSize, Written(ev)));
  }

  /** Sending pieces takes one sequence number for each and changes nothing else of the state. */
  lemma {:induction false} PiecesAdvance(c: Crypto, settings: Settings, st: CState, ctype: Byte, pieces: seq<Bytes>)
    requires Correct(c) && Keyed(st) && ctype != CHANGE_CIPHER_SPEC
    requires SendPieces(c, TLS13_CONFIG, settings, st, ctype, pieces).res.Ok?
    ensures var s := SendPieces(c, TLS13_CONFIG, settings, st, ctype, pieces);
            s.st == st.(seqnum := st.seqnum + |pieces|) && |s.records| == |pieces|
    decreases |pieces|
  {
    hide Correct, SendPadded;
    if pieces != [] {
      PieceAdvances(c, settings, st, ctype, pieces[0]);
      PiecesAdvance(c, settings, SendPadded(c, TLS13_CONFIG, settings, st, ctype, pieces[0]).st, ctype, pieces[1..]);
    }
  }

  lemma PieceAdvances(c: Crypto, settings: Settings, st: CState, ctype: Byte, data: Bytes)
    requires Correct(c) && Keyed(st) && ctype != CHANGE_CIPHER_SPEC
    requires SendPadded(c, TLS13_CONFIG, settings, st, ctype, data).res.Ok?
    ensures SendPadded(c, TLS13_CONFIG, settings, st, ctype, data).st == st.(seqnum := st.seqnum + 1)
  {
    var m := Outgoing(ctype, data, PaddingFor(settings, ctype, data).value);
    SendAdvances(c, TLS13_CONFIG, st, m);
    SendSealsUnderNonce(c, TLS13_CONFIG, st, m);
    hide Correct, RecordProtection.Send, PaddingFor;
  }

  /** A writer at the k-th secret of the chain from the given one. */
  predicate AtLink(c: Crypto, suite: Suite, secret: Bytes, k: nat, w: Writer) {
    w.secret == ChainSecret(c, suite, secret, k) && Under(c, suite, w.secret, w.st)
  }

  /** Each KeyUpdate goes out under the old key and takes the writer one link on, to sequence number 0; any
      other message leaves secret, key and initialisation vector as they are. */
  lemma SentAlongChain(c: Crypto, suite: Suite, settings: Settings, secret: Bytes, k: nat, w: Writer, ev: Event)
    requires Correct(c) && Keyed(w.st) && settings.recordSize >= 1 && AtLink(c, suite, secret, k, w)
    requires SendEvent(c, suite, settings, w, ev).res.Ok?
    ensures var d := SendEvent(c, suite, settings, w, ev);
            var n := |Fragments(settings.recordSize, Written(ev))|;
            && |d.records| == n
            && AtLink(c, suite, secret, if ev.Update? then k + 1 else k, d.writer)
            && d.writer.st.seqnum == if ev.Update? then 0 else w.st.seqnum + n
  {
    hide Correct, SendPieces, ChainSecret, TrafficState, NextSecret, KeyOf, IvOf;
    PiecesAdvance(c, settings, w.st, TypeOf(ev), Fragments(settings.recordSize, Written(ev)));
    NextIsOnChain(c, suite, secret, k);
    FreshUnder(c, suite, NextSecret(c, suite, w.secret));
  }

  function EventsOf(jobs: seq<Job>): seq<Event> {
    seq(|jobs|, i requires 0 <= i < |jobs| => jobs[i].ev)
  }

  lemma UpdatesOfFirst(jobs: seq<Job>)
    requires jobs != []
    ensures Updates(EventsOf(jobs)) == (if jobs[0].ev.Update? then 1 else 0) + Updates(EventsOf(jobs[1..]))
  {
    assert EventsOf(jobs)[1..] == EventsOf(jobs[1..]);
  }

  /** After any run, the secret is as many links on as KeyUpdates were sent, and the state belongs to it. */
  lemma {:induction false} RunAlongChain(c: Crypto, suite: Suite, secret: Bytes, k: nat, w: Writer, jobs: seq<Job>)
    requires Correct(c) && Keyed(w.st) && Sizes(jobs) && AtLink(c, suite, secret, k, w)
    requires SendAll(c, suite, w, jobs).res.Ok?
    ensures AtLink(c, suite, secret, k + Updates(EventsOf(jobs)), SendAll(c, suite, w, jobs).writer)
    decreases |jobs|
  {
    hide Correct, SendEvent, AtLink, Keyed;
    if jobs != [] {
      var d := SendEvent(c, suite, jobs[0].settings, w, jobs[0].ev);
      SentAlongChain(c, suite, jobs[0].settings, secret, k, w, jobs[0].ev);
      StaysKeyed(c, suite, jobs[0].settings, w, jobs[0].ev);
      RunAlongChain(c, suite, secret, if jobs[0].ev.Update? then k + 1 else k, d.writer, jobs[1..]);
      UpdatesOfFirst(jobs);
    }
  }

  //
  // Keys and nonces
  //

  /** Where in its run a record was sealed: the link of the chain, and the sequence number there. */
  datatype Mark = Mark(link: nat, seqnum: nat)

  function Marks(jobs: seq<Job>, k: nat, seqnum: nat): seq<Mark>
    requires Sizes(jobs)
    decreases |jobs|
  {
    if jobs == [] then []
    else
      var n := |Fragments(jobs[0].settings.recordSize, Written(jobs[0].ev))|;
      seq(n, i requires 0 <= i < n => Mark(k, seqnum + i)) +
      if jobs[0].ev.Update? then Marks(jobs[1..], k + 1, 0) else Marks(jobs[1..], k, seqnum + n)
  }

  /** The nonce of section 5.3 of RFC 8446. */
  predicate IsNonce(nonce: Bytes, iv: Bytes, seqnum: nat) {
    |nonce| == |iv| == 12 && FromBE(XorBytes(nonce, iv)) == seqnum
  }

  /** The payload is sealed under the key of the mark and its nonce. */
  ghost predicate SealedAt(c: Crypto, suite: Suite, secret: Bytes, m: Mark, payload: Bytes) {
    var s := ChainSecret(c, suite, secret, m.link);
    exists nonce, plain, ad :: IsNonce(nonce, IvOf(c, suite, s), m.seqnum) && SealOf(c, suite, KeyOf(c, suite, s), nonce, plain, ad, payload)
  }

  predicate SealOf(c: Crypto, suite: Suite, key: Bytes, nonce: Bytes, plain: Bytes, ad: Bytes, payload: Bytes) {
    payload == c.seal(Aead(suite.cipher, key, suite.tagLength, 12), nonce, plain, ad)
  }

  lemma PieceSealedAt(c: Crypto, suite: Suite, settings: Settings, secret: Bytes, k: nat, st: CState, ctype: Byte, data: Bytes)
    requires Correct(c) && Under(c, suite, ChainSecret(c, suite, secret, k), st) && ctype != CHANGE_CIPHER_SPEC
    requires SendPadded(c, TLS13_CONFIG, settings, st, ctype, data).res.Ok?
    ensures SealedAt(c, suite, secret, Mark(k, st.seqnum), SendPadded(c, TLS13_CONFIG, settings, st, ctype, data).res.value.payload)
  {
    var m := Outgoing(ctype, data, PaddingFor(settings, ctype, data).value);
    var s := ChainSecret(c, suite, secret, k);
    SendSealsUnderNonce(c, TLS13_CONFIG, st, m);
    assert |IvOf(c, suite, s)| == 12;
    hide Correct, RecordProtection.Send, PaddingFor, ChainSecret, KeyOf, IvOf, SealAuthData, Disguise;
    var nonce := NonceAt(TLS13_CONFIG, st, st.seqnum).value;
    NonceIs(st, nonce);
    var inner := Disguise(TLS13_CONFIG, st, ctype, data, m.padding).1;
    var ad := SealAuthData(TLS13_CONFIG, st.enc.aead, ToBE(st.seqnum, 8), Disguise(TLS13_CONFIG, st, ctype, data, m.padding).0, |inner|).value;
    assert SealOf(c, suite, KeyOf(c, suite, s), nonce, inner, ad,
                  SendPadded(c, TLS13_CONFIG, settings, st, ctype, data).res.value.payload);
  }

  lemma NonceIs(st: CState, nonce: Bytes)
    requires st.enc.AeadCipher? && |st.fixedNonce| == 12 && st.seqnum < SEQ_LIMIT
    requires NonceAt(TLS13_CONFIG, st, st.seqnum) == Ok(nonce)
    ensures IsNonce(nonce, st.fixedNonce, st.seqnum)
  {
    assert Pow256(8) == SEQ_LIMIT;
    hide Pow256, FromBE, ToBE, XorByte;
    var b := Zeros(4) + ToBE(st.seqnum, 8);
    XorBytesBack(b, st.fixedNonce);
    LeadingZeros(4, ToBE(st.seqnum, 8));
  }

  lemma {:induction false} PiecesSealedAt(c: Crypto, suite: Suite, settings: Settings, secret: Bytes, k: nat, st: CState,
                                          ctype: Byte, pieces: seq<Bytes>, i: nat)
    requires Correct(c) && Under(c, suite, ChainSecret(c, suite, secret, k), st) && ctype != CHANGE_CIPHER_SPEC
    requires SendPieces(c, TLS13_CONFIG, settings, st, ctype, pieces).res.Ok? && i < |pieces|
    ensures var s := SendPieces(c, TLS13_CONFIG, settings, st, ctype, pieces);
            |s.records| == |pieces| && SealedAt(c, suite, secret, Mark(k, st.seqnum + i), s.records[i].payload)
    decreases |pieces|
  {
    hide Correct, SendPadded, SealedAt, ChainSecret, KeyOf, IvOf;
    PiecesAdvance(c, settings, st, ctype, pieces);
    PieceAdvances(c, settings, st, ctype, pieces[0]);
    if i == 0 {
      PieceSealedAt(c, suite, settings, secret, k, st, ctype, pieces[0]);
    } else {
      var st' := SendPadded(c, TLS13_CONFIG, settings, st, ctype, pieces[0]).st;
      PiecesSealedAt(c, suite, settings, secret, k, st', ctype, pieces[1..], i - 1);
    }
  }

  /** Every record of a run is sealed under the key and the nonce of its mark. */
  lemma {:induction false} RecordsSealedAtMarks(c: Crypto, suite: Suite, secret: Bytes, k: nat, w: Writer, jobs: seq<Job>, i: nat)
    requires Correct(c) && Keyed(w.st) && Sizes(jobs) && AtLink(c, suite, secret, k, w)
    requires SendAll(c, suite, w, jobs).res.Ok? && i < |SendAll(c, suite, w, jobs).records|
    ensures |Marks(jobs, k, w.st.seqnum)| == |SendAll(c, suite, w, jobs).records|
    ensures SealedAt(c, suite, secret, Marks(jobs, k, w.st.seqnum)[i], SendAll(c, suite, w, jobs).records[i].payload)
    decreases |jobs|
  {
    hide Correct, SendEvent, AtLink, Keyed, SealedAt, Fragments;
    MarksForRecords(c, suite, secret, k, w, jobs);
    var ev, settings := jobs[0].ev, jobs[0].settings;
    var d := SendEvent(c, suite, settings, w, ev);
    SentAlongChain(c, suite, settings, secret, k, w, ev);
    if i < |d.records| {
      EventSealedAt(c, suite, settings, secret, k, w, ev, i);
    } else {
      StaysKeyed(c, suite, settings, w, ev);
      RecordsSealedAtMarks(c, suite, secret, if ev.Update? then k + 1 else k, d.writer, jobs[1..], i - |d.records|);
    }
  }

  lemma EventSealedAt(c: Crypto, suite: Suite, settings: Settings, secret: Bytes, k: nat, w: Writer, ev: Event, i: nat)
    requires Correct(c) && Keyed(w.st) && settings.recordSize >= 1 && AtLink(c, suite, secret, k, w)
    requires SendEvent(c, suite, settings, w, ev).res.Ok? && i < |Fragments(settings.recordSize, Written(ev))|
    ensures var d := SendEvent(c, suite, settings, w, ev);
            i < |d.records| && SealedAt(c, suite, secret, Mark(k, w.st.seqnum + i), d.records[i].payload)
  {
    hide Correct, SendPieces, SealedAt, ChainSecret, Under;
    PiecesSealedAt(c, suite, settings, secret, k, w.st, TypeOf(ev), Fragments(settings.recordSize, Written(ev)), i);
  }

  lemma {:induction false} MarksForRecords(c: Crypto, suite: Suite, secret: Bytes, k: nat, w: Writer, jobs: seq<Job>)
    requires Correct(c) && Keyed(w.st) && Sizes(jobs) && AtLink(c, suite, secret, k, w)
    requires SendAll(c, suite, w, jobs).res.Ok?
    ensures |Marks(jobs, k, w.st.seqnum)| == |SendAll(c, suite, w, jobs).records|
    decreases |jobs|
  {
    hide Correct, SendEvent, AtLink, Keyed, Fragments;
    if jobs != [] {
      var d := SendEvent(c, suite, jobs[0].settings, w, jobs[0].ev);
      SentAlongChain(c, suite, jobs[0].settings, secret, k, w, jobs[0].ev);
      StaysKeyed(c, suite, jobs[0].settings, w, jobs[0].ev);
      MarksForRecords(c, suite, secret, if jobs[0].ev.Update? then k + 1 else k, d.writer, jobs[1..]);
    }
  }

  predicate Earlier(a: Mark, b: Mark) {
    a.link < b.link || (a.link == b.link && a.seqnum < b.seqnum)
  }

  /** Marks lie between the start of a run and its last link. */
  lemma {:induction false} MarksBounded(jobs: seq<Job>, k: nat, seqnum: nat, i: nat)
    requires Sizes(jobs) && i < |Marks(jobs, k, seqnum)|
    ensures var m := Marks(jobs, k, seqnum)[i];
            k <= m.link <= k + Updates(EventsOf(jobs)) && (m.link == k ==> m.seqnum >= seqnum)
    decreases |jobs|
  {
    hide Fragments;
    UpdatesOfFirst(jobs);
    var n := |Fragments(jobs[0].settings.recordSize, Written(jobs[0].ev))|;
    if i >= n {
      if jobs[0].ev.Update? {
        MarksBounded(jobs[1..], k + 1, 0, i - n);
      } else {
        MarksBounded(jobs[1..], k, seqnum + n, i - n);
      }
    }
  }

  /** Records are sealed at later and later marks. */
  lemma {:induction false} MarksIncrease(jobs: seq<Job>, k: nat, seqnum: nat, i: nat, j: nat)
    requires Sizes(jobs) && i < j < |Marks(jobs, k, seqnum)|
    ensures Earlier(Marks(jobs, k, seqnum)[i], Marks(jobs, k, seqnum)[j])
    decreases |jobs|
  {
    hide Fragments, Written, Marks, Updates, EventsOf;
    var n, k', q := MarksUnfold(jobs, k, seqnum);
    if j >= n {
      if i < n {
        MarksBounded(jobs[1..], k', q, j - n);
      } else {
        MarksIncrease(jobs[1..], k', q, i - n, j - n);
      }
    }
  }

  /** The marks of the first message, and where those of the others begin. */
  lemma MarksUnfold(jobs: seq<Job>, k: nat, seqnum: nat) returns (n: nat, k': nat, q: nat)
    requires Sizes(jobs) && Marks(jobs, k, seqnum) != []
    ensures jobs != [] && Sizes(jobs[1..]) && k' >= k && (k' == k ==> q == seqnum + n)
    ensures |Marks(jobs, k, seqnum)| == n + |Marks(jobs[1..], k', q)|
    ensures forall i :: 0 <= i < n ==> Marks(jobs, k, seqnum)[i] == Mark(k, seqnum + i)
    ensures forall i :: n <= i < |Marks(jobs, k, seqnum)| ==> Marks(jobs, k, seqnum)[i] == Marks(jobs[1..], k', q)[i - n]
  {
    hide Fragments, Written;
    n := |Fragments(jobs[0].settings.recordSize, Written(jobs[0].ev))|;
    k', q := if jobs[0].ev.Update? then k + 1 else k, if jobs[0].ev.Update? then 0 else seqnum + n;
  }

  /** The keys of the links from k to n are all different. */
  ghost predicate KeysDiffer(c: Crypto, suite: Suite, secret: Bytes, k: nat, n: nat) {
    forall i, j :: k <= i < j <= n ==>
      KeyOf(c, suite, ChainSecret(c, suite, secret, i)) != KeyOf(c, suite, ChainSecret(c, suite, secret, j))
  }

  /** Over any run, KeyUpdates included, no two records are sealed under the same key and the same nonce, if the
      keys along the chain differ. */
  lemma KeyAndNonceNeverRepeat(c: Crypto, suite: Suite, secret: Bytes, k: nat, seqnum: nat, jobs: seq<Job>, i: nat, j: nat,
                               nonce: Bytes, nonce': Bytes)
    requires Sizes(jobs) && i < j < |Marks(jobs, k, seqnum)|
    requires KeysDiffer(c, suite, secret, k, k + Updates(EventsOf(jobs)))
    requires var m, m' := Marks(jobs, k, seqnum)[i], Marks(jobs, k, seqnum)[j];
             && IsNonce(nonce, IvOf(c, suite, ChainSecret(c, suite, secret, m.link)), m.seqnum)
             && IsNonce(nonce', IvOf(c, suite, ChainSecret(c, suite, secret, m'.link)), m'.seqnum)
    ensures var m, m' := Marks(jobs, k, seqnum)[i], Marks(jobs, k, seqnum)[j];
            || KeyOf(c, suite, ChainSecret(c, suite, secret, m.link)) != KeyOf(c, suite, ChainSecret(c, suite, secret, m'.link))
            || nonce != nonce'
  {
    hide ChainSecret, KeyOf, IvOf, FromBE, XorBytes, Marks, Sizes, Updates, EventsOf;
    MarksIncrease(jobs, k, seqnum, i, j);
    MarksBounded(jobs, k, seqnum, i);
    MarksBounded(jobs, k, seqnum, j);
  }

  //
  // Both ends
  //

  /** A reader at the k-th secret of a chain. */
  predicate ReadsAtLink(c: Crypto, suite: Suite, secret: Bytes, k: nat, r: Reader) {
    r.secret == ChainSecret(c, suite, secret, k) && Under(c, suite, r.secret, r.side.st)
  }

  /** In one direction: the writer is as far along the chain as KeyUpdates were sent, the reader as far as they
      were heard. */
  ghost predicate OnChain(c: Crypto, suite: Suite, secret: Bytes, w: Writer, r: Reader, sent: seq<Event>, heard: seq<Event>) {
    AtLink(c, suite, secret, Updates(sent), w) && ReadsAtLink(c, suite, secret, Updates(heard), r)
  }

  ghost predicate BothOnChain(c: Crypto, suite: Suite, secretA: Bytes, secretB: Bytes, s: System) {
    && OnChain(c, suite, secretA, WriterOf(s.a), ReaderOf(s.b), s.sentA, s.heardB)
    && OnChain(c, suite, secretB, WriterOf(s.b), ReaderOf(s.a), s.sentB, s.heardA)
  }

  lemma {:induction false} NextKeepsState(c: Crypto, r: Reader, input: seq<Record>)
    requires Live(r)
    ensures var st := NextRecord(c, r, input).reader.side.st; st == r.side.st.(seqnum := st.seqnum)
    decreases |input|
  {
    hide ReceiveRecord, Take, Buffered, Proper, Append;
    if Take(r.defrag).0.None? {
      NothingTaken(r.defrag);
      ReceiveKeeps(c, r.side, input);
      var p := NextPass(c, r, input);
      if p.Again? {
        NextKeepsState(c, p.reader, p.rest);
      }
    }
  }

  lemma {:induction false} GetKeepsState(c: Crypto, r: Reader, input: seq<Record>)
    requires Live(r)
    ensures var st := GetMsg(c, r, input).reader.side.st; st == r.side.st.(seqnum := st.seqnum)
    decreases |input|, Buffered(r.defrag, 0)
  {
    hide NextRecord, Take, Buffered, Proper, Sift;
    NextKeepsState(c, r, input);
    var f := NextRecord(c, r, input);
    if f.Fetched? && Sift(f).Again? {
      GetKeepsState(c, f.reader, f.rest);
    }
  }

  /** Each KeyUpdate that is heard takes the reader one link on, and nothing else does. */
  lemma HeardAlongChain(c: Crypto, suite: Suite, secret: Bytes, k: nat, r: Reader, input: seq<Record>)
    requires Live(r) && ReadsAtLink(c, suite, secret, k, r)
    ensures var o := ReadEvent(c, suite, r, input);
            ReadsAtLink(c, suite, secret, if o.Heard? && o.event.Update? then k + 1 else k, o.reader)
  {
    hide GetMsg, Interpret, ChainSecret, TrafficState, NextSecret, KeyOf, IvOf, Take, Shorter, SameSettings;
    GetKeepsState(c, r, input);
    NextIsOnChain(c, suite, secret, k);
    FreshUnder(c, suite, NextSecret(c, suite, r.secret));
  }

  lemma ExpectedUpdates(settings: Settings, ev: Event)
    requires settings.recordSize >= 1
    ensures Updates(Expected(settings, ev)) == if ev.Update? then 1 else 0
  {
    if ev.Data? {
      NoUpdateInData(Fragments(settings.recordSize, ev.bytes));
    } else {
      assert Updates([ev]) == (if ev.Update? then 1 else 0) + Updates([]);
    }
  }

  lemma {:induction false} NoUpdateInData(pieces: seq<Bytes>)
    ensures Updates(DataEvents(pieces)) == 0
  {
    if pieces != [] {
      NoUpdateInData(pieces[1..]);
      UpdatesAppend(if pieces[0] == [] then [] else [Data(pieces[0])], DataEvents(pieces[1..]));
    }
  }

  lemma TransmitOnChain(c: Crypto, suite: Suite, secretA: Bytes, secretB: Bytes, s: System, ev: Event)
    requires Correct(c) && Working(s.a) && BothOnChain(c, suite, secretA, secretB, s) && Transmit(c, suite, s, ev).Ok?
    ensures BothOnChain(c, suite, secretA, secretB, Transmit(c, suite, s, ev).value)
  {
    hide Correct, SendEvent, AtLink, ReadsAtLink, Expected, Live, Keyed;
    SentAlongChain(c, suite, s.a.settings, secretA, Updates(s.sentA), WriterOf(s.a), ev);
    UpdatesAppend(s.sentA, Expected(s.a.settings, ev));
    ExpectedUpdates(s.a.settings, ev);
  }

  lemma ListenOnChain(c: Crypto, suite: Suite, secretA: Bytes, secretB: Bytes, s: System, n: nat)
    requires Live(ReaderOf(s.a)) && BothOnChain(c, suite, secretA, secretB, s) && Listen(c, suite, s, n).Ok?
    ensures BothOnChain(c, suite, secretA, secretB, Listen(c, suite, s, n).value)
  {
    hide ReadEvent, AtLink, ReadsAtLink, Live;
    HeardAlongChain(c, suite, secretB, Updates(s.heardA), ReaderOf(s.a), s.ba[..Arrived(n, s.ba)]);
    var o := Hears(c, suite, s, n);
    if o.Heard? {
      UpdatesAppend(s.heardA, [o.event]);
      assert Updates([o.event]) == (if o.event.Update? then 1 else 0) + Updates([]);
    }
  }

  lemma ActOnChain(c: Crypto, suite: Suite, secretA: Bytes, secretB: Bytes, s: System, move: Move)
    requires Correct(c) && Working(s.a) && BothOnChain(c, suite, secretA, secretB, s) && Act(c, suite, s, move).Ok?
    ensures BothOnChain(c, suite, secretA, secretB, Act(c, suite, s, move).value)
  {
    hide Correct, Listen, Transmit, Hears, Live, Keyed, OnChain;
    match move
    case Send(ev) => TransmitOnChain(c, suite, secretA, secretB, s, ev);
    case Read(n) =>
      ListenOnChain(c, suite, secretA, secretB, s, n);
      var s' := Listen(c, suite, s, n).value;
      var o := Hears(c, suite, s, n);
      if o.Heard? && o.event == Update(true) {
        ListenWorks(c, suite, s, n);
        TransmitOnChain(c, suite, secretA, secretB, s', Update(false));
      }
    case Configure(_) => OnlySettings(c, suite, secretA, secretB, s, Act(c, suite, s, move).value);
    case Insert(_, _) => OnlySettings(c, suite, secretA, secretB, s, Act(c, suite, s, move).value);
  }

  lemma OnlySettings(c: Crypto, suite: Suite, secretA: Bytes, secretB: Bytes, s: System, s': System)
    requires BothOnChain(c, suite, secretA, secretB, s)
    requires s' == s.(a := s.a.(settings := s'.a.settings), ab := s'.ab)
    ensures BothOnChain(c, suite, secretA, secretB, s')
  {
    hide AtLink, ReadsAtLink;
  }

  lemma ListenWorks(c: Crypto, suite: Suite, s: System, n: nat)
    requires Working(s.a) && Listen(c, suite, s, n).Ok?
    ensures Working(Listen(c, suite, s, n).value.a)
  {
    hide ReadEvent, Live, Keyed;
  }

  lemma FlipOnChain(c: Crypto, suite: Suite, secretA: Bytes, secretB: Bytes, s: System)
    ensures BothOnChain(c, suite, secretA, secretB, s) <==> BothOnChain(c, suite, secretB, secretA, Flip(s))
  {
    hide OnChain;
  }

  /** In every reachable state, in each direction, the writer is as many links along its chain as KeyUpdates were
      sent, the reader as many as were heard, and their states are the expansions of just these secrets. */
  lemma {:induction false} RunOnChain(c: Crypto, suite: Suite, secretA: Bytes, secretB: Bytes, s: System, turns: seq<Turn>, s': System)
    requires Correct(c) && BothOnChain(c, suite, secretA, secretB, s) && Reaches(c, suite, s, turns, s')
    ensures BothOnChain(c, suite, secretA, secretB, s')
    decreases |turns|
  {
    hide Correct, Act, Working, Admissible, BothOnChain;
    if turns != [] {
      var next := Do(c, suite, s, turns[0]).value;
      FlipOnChain(c, suite, secretA, secretB, s);
      if turns[0].bySecond {
        ActOnChain(c, suite, secretB, secretA, Flip(s), turns[0].move);
        FlipOnChain(c, suite, secretA, secretB, next);
      } else {
        ActOnChain(c, suite, secretA, secretB, s, turns[0].move);
      }
      RunOnChain(c, suite, secretA, secretB, next, turns[1..], s');
    }
  }

  /** So it is from the end of every handshake on. */
  lemma StartOnChain(c: Crypto, suite: Suite, a: Endpoint, b: Endpoint, clSecret: Bytes, srSecret: Bytes)
    requires a.client && !b.client
    requires a == Fresh(c, suite, true, clSecret, srSecret, a.side.recvLimit, a.side.maxEarly, a.compat, a.settings)
    requires b == Fresh(c, suite, false, clSecret, srSecret, b.side.recvLimit, b.side.maxEarly, b.compat, b.settings)
    ensures BothOnChain(c, suite, clSecret, srSecret, System(a, b, [], [], [], [], [], []))
  {
    hide TrafficState, Under;
    FreshUnder(c, suite, clSecret);
    FreshUnder(c, suite, srSecret);
  }
}
