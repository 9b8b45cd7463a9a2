/** Reading one record: limits, unprotection, skipping of early data, and the hidden content type. */
module RecordReception {
  import opened Results
  import opened ByteStrings
  import opened Primitives
  import opened RecordProtection

  /** The reading half of the record layer. */
  datatype ReadSide = ReadSide(st: CState, earlyOk: bool, maxEarly: nat, earlyDone: nat, recvLimit: nat)

  datatype Reception =
    | Received(ctype: Byte, data: Bytes, side: ReadSide, rest: seq<Record>)
    | Blocked(side: ReadSide)
    | Raised(error: Error, side: ReadSide, rest: seq<Record>)

  predicate TooLong(cfg: Config, recvLimit: nat, rec: Record) {
    |rec.payload| > recvLimit + 1024 + 1024 || (cfg.tls13record && |rec.payload| > recvLimit + 256)
  }

  /** Unprotect, and take application data before any key is known for early data. */
  function Open(c: Crypto, cfg: Config, side: ReadSide, rec: Record): Step<Bytes>
    requires ValidBlockSize(side.st)
  {
    var s := Unprotect(c, cfg, side.st, rec);
    if s.res.Ok? && s.st.enc == NoCipher && s.st.mac.None? && side.earlyOk && rec.ctype == APPLICATION_DATA
    then Step(Err(BadRecordMac), s.st) else s
  }

  /** A record that may be ignored as undecryptable early data. */
  predicate Skippable(c: Crypto, cfg: Config, side: ReadSide, rec: Record)
    requires ValidBlockSize(side.st)
  {
    && !TooLong(cfg, side.recvLimit, rec)
    && Open(c, cfg, side, rec).res == Err(BadRecordMac)
    && side.earlyOk && side.earlyDone + |rec.payload| < side.maxEarly
  }

  /** What follows a successful decryption. */
  function Accept(cfg: Config, side: ReadSide, ctype: Byte, data: Bytes, rest: seq<Record>): Reception {
    if IsTls13(cfg) && side.st.enc != NoCipher && ctype == APPLICATION_DATA then
      if |data| > side.recvLimit + 1 then Raised(RecordOverflow, side, rest)
      else
        match DePad(data)
        case Err(e) => Raised(e, side, rest)
        case Ok((content, inner)) =>
          if |content| > side.recvLimit then Raised(RecordOverflow, side, rest)
          else Received(inner, content, side, rest)
    else if |data| > side.recvLimit then Raised(RecordOverflow, side, rest)
    else Received(ctype, data, side, rest)
  }

  /** recvRecord, from the records that the network holds. */
  function ReceiveRecord(c: Crypto, cfg: Config, side: ReadSide, input: seq<Record>): Reception
    requires ValidBlockSize(side.st)
    decreases |input|
  {
    if input == [] then Blocked(side)
    else
      var rec, rest := input[0], input[1..];
      if TooLong(cfg, side.recvLimit, rec) then Raised(RecordOverflow, side, rest)
      else if Skippable(c, cfg, side, rec) then
        ReceiveRecord(c, cfg, side.(earlyDone := side.earlyDone + |rec.payload|), rest)
      else
        var s := Open(c, cfg, side, rec);
        match s.res
        case Err(e) => Raised(e, side.(st := s.st), rest)
        case Ok(data) => Accept(cfg, side.(st := s.st, earlyOk := false, earlyDone := 0), rec.ctype, data, rest)
  }

  lemma ReceiveStep(c: Crypto, cfg: Config, side: ReadSide, input: seq<Record>)
    requires ValidBlockSize(side.st) && input != []
    ensures var rec, rest := input[0], input[1..];
            var s := Open(c, cfg, side, rec);
            ReceiveRecord(c, cfg, side, input) ==
              if TooLong(cfg, side.recvLimit, rec) then Raised(RecordOverflow, side, rest)
              else if s.res == Err(BadRecordMac) && side.earlyOk && side.earlyDone + |rec.payload| < side.maxEarly then
                ReceiveRecord(c, cfg, side.(earlyDone := side.earlyDone + |rec.payload|), rest)
              else if s.res.Err? then Raised(s.res.error, side.(st := s.st), rest)
              else Accept(cfg, side.(st := s.st, earlyOk := false, earlyDone := 0), rec.ctype, s.res.value, rest)
  {
    hide TooLong, Open, Accept;
  }

  lemma ReceiveNothing(c: Crypto, cfg: Config, side: ReadSide)
    requires ValidBlockSize(side.st)
    ensures ReceiveRecord(c, cfg, side, []) == Blocked(side)
  {
  }

  /** The payload bytes of a list of records. */
  function PayloadSize(records: seq<Record>): nat {
    if records == [] then 0 else |records[0].payload| + PayloadSize(records[1..])
  }

  /** A record that the reader cannot open in its present state. */
  predicate Undecryptable(c: Crypto, cfg: Config, side: ReadSide, rec: Record)
    requires ValidBlockSize(side.st)
  {
    !TooLong(cfg, side.recvLimit, rec) && Open(c, cfg, side, rec).res == Err(BadRecordMac)
  }

  lemma OpenIgnoresCounters(c: Crypto, cfg: Config, side: ReadSide, rec: Record, done: nat)
    requires ValidBlockSize(side.st)
    ensures Open(c, cfg, side.(earlyDone := done), rec) == Open(c, cfg, side, rec)
  {
  }

  /** A run of undecryptable records within the allowance leaves no trace but the count of their bytes. */
  lemma {:induction false} SkipsJunk(c: Crypto, cfg: Config, side: ReadSide, junk: seq<Record>, rest: seq<Record>)
    requires ValidBlockSize(side.st) && side.earlyOk
    requires forall r :: r in junk ==> Undecryptable(c, cfg, side, r)
    requires junk != [] ==> side.earlyDone + PayloadSize(junk) < side.maxEarly
    ensures ReceiveRecord(c, cfg, side, junk + rest)
         == ReceiveRecord(c, cfg, side.(earlyDone := side.earlyDone + PayloadSize(junk)), rest)
    decreases |junk|
  {
    hide Open, TooLong;
    if junk == [] {
      assert junk + rest == rest;
    } else {
      var rec := junk[0];
      assert Undecryptable(c, cfg, side, rec);
      assert (junk + rest)[0] == rec && (junk + rest)[1..] == junk[1..] + rest;
      var next := side.(earlyDone := side.earlyDone + |rec.payload|);
      forall r | r in junk[1..] ensures Undecryptable(c, cfg, next, r) {
        assert Undecryptable(c, cfg, side, r);
        OpenIgnoresCounters(c, cfg, side, r, next.earlyDone);
      }
      SkipsJunk(c, cfg, next, junk[1..], rest);
    }
  }

  /** Early data: after undecryptable records within the allowance, the first genuine record is opened in
      the state it was sealed for, and flag and counter are cleared. */
  lemma EarlyDataSkipped(c: Crypto, cfg: Config, side: ReadSide, junk: seq<Record>, good: Record, rest: seq<Record>)
    requires ValidBlockSize(side.st) && side.earlyOk && side.earlyDone == 0
    requires forall r :: r in junk ==> Undecryptable(c, cfg, side, r)
    requires junk != [] ==> PayloadSize(junk) < side.maxEarly
    requires !TooLong(cfg, side.recvLimit, good) && Open(c, cfg, side, good).res.Ok?
    ensures var s := Open(c, cfg, side, good);
            && ReceiveRecord(c, cfg, side, junk + [good] + rest)
            == Accept(cfg, side.(st := s.st, earlyOk := false, earlyDone := 0), good.ctype, s.res.value, rest)
            && s.st == Unprotect(c, cfg, side.st, good).st
  {
    assert junk + [good] + rest == junk + ([good] + rest);
    SkipsJunk(c, cfg, side, junk, [good] + rest);
    OpenIgnoresCounters(c, cfg, side, good, PayloadSize(junk));
    assert ([good] + rest)[0] == good && ([good] + rest)[1..] == rest;
    hide Open, TooLong, Accept;
  }

  /** The allowance is exact: the record that would exhaust it ends the connection. */
  lemma EarlyDataExhausted(c: Crypto, cfg: Config, side: ReadSide, junk: seq<Record>, last: Record, rest: seq<Record>)
    requires ValidBlockSize(side.st) && side.earlyOk && side.earlyDone == 0
    requires forall r :: r in junk + [last] ==> Undecryptable(c, cfg, side, r)
    requires junk != [] ==> PayloadSize(junk) < side.maxEarly
    ensures var r := ReceiveRecord(c, cfg, side, junk + [last] + rest);
            if PayloadSize(junk) + |last.payload| < side.maxEarly then
              r == ReceiveRecord(c, cfg, side.(earlyDone := PayloadSize(junk) + |last.payload|), rest)
            else r.Raised? && r.error == BadRecordMac && r.rest == rest
  {
    assert junk + [last] + rest == junk + ([last] + rest);
    assert last in junk + [last];
    forall r | r in junk ensures Undecryptable(c, cfg, side, r) { assert r in junk + [last]; }
    SkipsJunk(c, cfg, side, junk, [last] + rest);
    OpenIgnoresCounters(c, cfg, side, last, PayloadSize(junk));
    assert ([last] + rest)[0] == last && ([last] + rest)[1..] == rest;
    hide Open, TooLong, Accept;
  }
}
