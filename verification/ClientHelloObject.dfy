/** The ClientHello as the original has it: an object that writers and parsers fill, and whose binders are patched. */
module ClientHelloObjects {
  import opened Results
  import opened ByteStrings
  import opened Primitives
  import opened KeySchedule
  import opened Codec
  import opened Extensions
  import opened ClientHellos
  import opened PskTruncation
  import opened PskBinding

  /** The identities of a pre_shared_key extension. */
  method ParseIdentities(p: Parser) returns (r: Result<seq<Identity>>)
    requires p.Valid() && Consuming(IDENTITIES)
    modifies p
    ensures p.Valid()
    ensures match TakeList(IDENTITIES, old(p.Rest()), 2)
            case Err(e) => r == Err(e)
            case Ok(t) => r == Ok(t.0) && p.Rest() == t.1
  {
    hide Consuming, ParseItems, TakeVar, TakeInt, TakeBytes;
    var _ :- p.StartLengthCheck(2);
    ghost var whole := ParseItems(IDENTITIES, p.Rest(), p.lengthCheck);
    var items: seq<Identity> := [];
    FirstOfItems(IDENTITIES, p.Rest(), p.lengthCheck);
    while true
      invariant p.Valid() && p.indexCheck <= p.index
      invariant ReadSoFar(IDENTITIES, whole, items, p.Rest(), p.lengthCheck - (p.index - p.indexCheck))
      decreases |p.Rest()|
    {
      NoMoreItems(IDENTITIES, whole, items, p.Rest());
      var done :- p.AtLengthCheck();
      if done { break; }
      ReadOne(IDENTITIES, whole, items, p.Rest(), p.lengthCheck - (p.index - p.indexCheck));
      var identity :- p.GetVarBytes(2);
      var age :- p.Get(4);
      items := items + [Identity(identity, age)];
    }
    return Ok(items);
  }

  /** The shares of a key_share extension. */
  method ParseShares(p: Parser) returns (r: Result<seq<Share>>)
    requires p.Valid() && Consuming(SHARES)
    modifies p
    ensures p.Valid()
    ensures match TakeList(SHARES, old(p.Rest()), 2)
            case Err(e) => r == Err(e)
            case Ok(t) => r == Ok(t.0) && p.Rest() == t.1
  {
    hide Consuming, ParseItems, TakeVar, TakeInt, TakeBytes;
    var _ :- p.StartLengthCheck(2);
    ghost var whole := ParseItems(SHARES, p.Rest(), p.lengthCheck);
    var items: seq<Share> := [];
    FirstOfItems(SHARES, p.Rest(), p.lengthCheck);
    while true
      invariant p.Valid() && p.indexCheck <= p.index
      invariant ReadSoFar(SHARES, whole, items, p.Rest(), p.lengthCheck - (p.index - p.indexCheck))
      decreases |p.Rest()|
    {
      NoMoreItems(SHARES, whole, items, p.Rest());
      var done :- p.AtLengthCheck();
      if done { break; }
      ReadOne(SHARES, whole, items, p.Rest(), p.lengthCheck - (p.index - p.indexCheck));
      var group :- p.Get(2);
      var keyExchange :- p.GetVarBytes(2);
      items := items + [Share(group, keyExchange)];
    }
    return Ok(items);
  }

  /** The names of a server_name extension. */
  method ParseNames(p: Parser) returns (r: Result<seq<ServerName>>)
    requires p.Valid() && Consuming(NAMES)
    modifies p
    ensures p.Valid()
    ensures match TakeList(NAMES, old(p.Rest()), 2)
            case Err(e) => r == Err(e)
            case Ok(t) => r == Ok(t.0) && p.Rest() == t.1
  {
    hide Consuming, ParseItems, TakeVar, TakeInt, TakeBytes;
    var _ :- p.StartLengthCheck(2);
    ghost var whole := ParseItems(NAMES, p.Rest(), p.lengthCheck);
    var items: seq<ServerName> := [];
    FirstOfItems(NAMES, p.Rest(), p.lengthCheck);
    while true
      invariant p.Valid() && p.indexCheck <= p.index
      invariant ReadSoFar(NAMES, whole, items, p.Rest(), p.lengthCheck - (p.index - p.indexCheck))
      decreases |p.Rest()|
    {
      NoMoreItems(NAMES, whole, items, p.Rest());
      var done :- p.AtLengthCheck();
      if done { break; }
      ReadOne(NAMES, whole, items, p.Rest(), p.lengthCheck - (p.index - p.indexCheck));
      var nameType :- p.Get(1);
      var name :- p.GetVarBytes(2);
      items := items + [ServerName(nameType, name)];
    }
    return Ok(items);
  }

  /** Byte strings behind their lengths: binders, protocols, responders. */
  method ParseStrings(p: Parser, lengthLength: nat) returns (r: Result<seq<Bytes>>)
    requires p.Valid() && Consuming(StringCodec(lengthLength))
    modifies p
    ensures p.Valid()
    ensures match TakeList(StringCodec(lengthLength), old(p.Rest()), 2)
            case Err(e) => r == Err(e)
            case Ok(t) => r == Ok(t.0) && p.Rest() == t.1
  {
    hide Consuming, ParseItems, TakeVar, TakeInt, TakeBytes;
    var _ :- p.StartLengthCheck(2);
    ghost var whole := ParseItems(StringCodec(lengthLength), p.Rest(), p.lengthCheck);
    var items: seq<Bytes> := [];
    FirstOfItems(StringCodec(lengthLength), p.Rest(), p.lengthCheck);
    while true
      invariant p.Valid() && p.indexCheck <= p.index
      invariant ReadSoFar(StringCodec(lengthLength), whole, items, p.Rest(), p.lengthCheck - (p.index - p.indexCheck))
      decreases |p.Rest()|
    {
      NoMoreItems(StringCodec(lengthLength), whole, items, p.Rest());
      var done :- p.AtLengthCheck();
      if done { break; }
      ReadOne(StringCodec(lengthLength), whole, items, p.Rest(), p.lengthCheck - (p.index - p.indexCheck));
      var x :- p.GetVarBytes(lengthLength);
      items := items + [x];
    }
    return Ok(items);
  }

  /** Nothing may be left over. */
  method Finish<T>(p: Parser, x: T) returns (r: Result<T>)
    requires p.Valid()
    ensures r == Whole(x, p.Rest())
  {
    var remaining := p.GetRemainingLength();
    if remaining != 0 { return Err(DecodeError); }
    return Ok(x);
  }

  method ParseSni(p: Parser) returns (r: Result<Extension>)
    requires p.Valid()
    modifies p
    ensures p.Valid() && r == Extensions.ParseSni(old(p.Rest()))
  {
    hide TakeList, Faithful;
    NamesFaithful();
    var remaining := p.GetRemainingLength();
    if remaining == 0 { return Ok(Sni(None)); }
    var names :- ParseNames(p);
    r := Finish(p, Sni(Some(names)));
  }

  method ParseKeyShares(p: Parser) returns (r: Result<Extension>)
    requires p.Valid()
    modifies p
    ensures p.Valid() && r == Extensions.ParseKeyShares(old(p.Rest()))
  {
    hide TakeList, Faithful;
    SharesFaithful();
    var remaining := p.GetRemainingLength();
    if remaining == 0 { return Ok(KeyShares(None)); }
    var shares :- ParseShares(p);
    r := Finish(p, KeyShares(Some(shares)));
  }

  method ParsePsk(p: Parser) returns (r: Result<Extension>)
    requires p.Valid()
    modifies p
    ensures p.Valid() && r == Extensions.ParsePsk(old(p.Rest()))
  {
    hide TakeList, Faithful;
    IdentitiesFaithful();
    StringsFaithful(1);
    var remaining := p.GetRemainingLength();
    if remaining == 0 { return Ok(Psk(None)); }
    var identities :- ParseIdentities(p);
    var binders :- ParseStrings(p, 1);
    r := Finish(p, Psk(Some(Offer(identities, binders))));
  }

  method ParseNumbers(k: NumbersKind, p: Parser) returns (r: Result<Extension>)
    requires p.Valid()
    modifies p
    ensures p.Valid() && r == Extensions.ParseNumbers(k, old(p.Rest()))
  {
    hide TakeList, Faithful;
    NumbersFaithful(k.ElemLength());
    var remaining := p.GetRemainingLength();
    if remaining == 0 { return Ok(Numbers(k, None)); }
    var numbers :- p.GetVarList(k.ElemLength(), k.LengthLength());
    r := Finish(p, Numbers(k, Some(numbers)));
  }

  method ParsePairs(k: PairsKind, p: Parser) returns (r: Result<Extension>)
    requires p.Valid()
    modifies p
    ensures p.Valid() && r == Extensions.ParsePairs(k, old(p.Rest()))
  {
    hide TakeList, Faithful;
    PairsFaithful();
    var remaining := p.GetRemainingLength();
    if remaining == 0 { return Ok(Pairs(k, None)); }
    var pairs :- p.GetVarPairs(k.LengthLength());
    r := Finish(p, Pairs(k, Some(pairs)));
  }

  method ParseNumber(k: NumberKind, p: Parser) returns (r: Result<Extension>)
    requires p.Valid()
    modifies p
    ensures p.Valid() && r == Extensions.ParseNumber(k, old(p.Rest()))
  {
    hide TakeInt;
    var remaining := p.GetRemainingLength();
    if remaining == 0 {
      if k.Heartbeat? { return Err(DecodeError); }
      return Ok(Number(k, None));
    }
    var x :- p.Get(k.Length());
    r := Finish(p, Number(k, Some(x)));
  }

  method ParseText(k: StringKind, p: Parser) returns (r: Result<Extension>)
    requires p.Valid()
    modifies p
    ensures p.Valid() && r == Extensions.ParseText(k, old(p.Rest()))
  {
    hide TakeVar;
    var remaining := p.GetRemainingLength();
    if remaining == 0 { return Ok(Text(k, None)); }
    var text :- p.GetVarBytes(k.LengthLength());
    r := Finish(p, Text(k, Some(text)));
  }

  /** Protocol names up to the end of the payload. */
  method ParseNpn(p: Parser) returns (r: Result<Extension>)
    requires p.Valid()
    modifies p
    ensures p.Valid() && r == Extensions.ParseNpn(old(p.Rest()))
  {
    StringsFaithful(1);
    hide Faithful, Consuming, ParseItems, TakeVar;
    ghost var whole := ParseItems(PROTOCOLS, p.Rest(), |p.Rest()|);
    FirstOfItems(PROTOCOLS, p.Rest(), |p.Rest()|);
    var items: seq<Bytes> := [];
    while |p.bytes| - p.index > 0
      invariant p.Valid()
      invariant ReadSoFar(PROTOCOLS, whole, items, p.Rest(), |p.Rest()|)
      decreases |p.Rest()|
    {
      ReadOne(PROTOCOLS, whole, items, p.Rest(), |p.Rest()|);
      var x :- p.GetVarBytes(1);
      items := items + [x];
    }
    NoMoreItems(PROTOCOLS, whole, items, p.Rest());
    return Ok(Npn(Some(items)));
  }

  method ParseAlpn(p: Parser) returns (r: Result<Extension>)
    requires p.Valid()
    modifies p
    ensures p.Valid() && r == Extensions.ParseAlpn(old(p.Rest()))
  {
    hide TakeList, Faithful;
    StringsFaithful(1);
    var protocols :- ParseStrings(p, 1);
    r := Finish(p, Alpn(Some(protocols)));
  }

  method ParseStatusRequest(p: Parser) returns (r: Result<Extension>)
    requires p.Valid()
    modifies p
    ensures p.Valid() && r == Extensions.ParseStatusRequest(old(p.Rest()))
  {
    hide TakeInt, TakeVar, TakeList, Faithful;
    StringsFaithful(2);
    var remaining := p.GetRemainingLength();
    if remaining == 0 { return Ok(StatusRequest(None, [], [])); }
    var t :- p.Get(1);
    var responders :- ParseStrings(p, 2);
    var extensions :- p.GetVarBytes(2);
    r := Finish(p, StatusRequest(Some(t), responders, extensions));
  }

  /** The parsers of the extensions that have one; other payloads are kept as they are. */
  method ParsePayload(t: nat, p: Parser) returns (r: Result<Extension>)
    requires p.Valid()
    modifies p
    ensures p.Valid() && r == Extensions.ParsePayload(t, old(p.Rest()))
  {
    hide Extensions.ParseSni, Extensions.ParseKeyShares, Extensions.ParsePsk, Extensions.ParseNumbers, Extensions.ParsePairs,
         Extensions.ParseNumber, Extensions.ParseText, Extensions.ParseNpn, Extensions.ParseAlpn,
         Extensions.ParseStatusRequest, TakeVar;
    match HandlerOf(t)
    case SniHandler => r := ParseSni(p);
    case KeySharesHandler => r := ParseKeyShares(p);
    case PskHandler => r := ParsePsk(p);
    case NumbersHandler(k) => r := ParseNumbers(k, p);
    case PairsHandler(k) => r := ParsePairs(k, p);
    case NumberHandler(k) => r := ParseNumber(k, p);
    case TextHandler(k) => r := ParseText(k, p);
    case NpnHandler => r := ParseNpn(p);
    case AlpnHandler => r := ParseAlpn(p);
    case StatusRequestHandler => r := ParseStatusRequest(p);
    case SrpHandler =>
      var user :- p.GetVarBytes(1);
      return Ok(Srp(Some(user)));
    case PaddingHandler => return Ok(Padding(p.Rest()));
    case SessionTicketHandler => return Ok(SessionTicket(Some(p.Rest())));
    case NoHandler => return Ok(Generic(t, p.Rest()));
  }

  /** TLSExtension.parse: the payload is read by a parser of its own. */
  method ParseExtension(p: Parser) returns (r: Result<Extension>)
    requires p.Valid()
    modifies p
    ensures p.Valid() && p.index >= old(p.index)
    ensures match Extensions.ParseExtension(old(p.Rest()))
            case Err(e) => r == Err(e)
            case Ok(t) => r == Ok(t.0) && p.Rest() == t.1
  {
    hide TakeInt, TakeVar, Extensions.ParsePayload;
    var t :- p.Get(2);
    var data :- p.GetVarBytes(2);
    var inner := new Parser(data);
    r := ParsePayload(t, inner);
  }

  /** The loop over the extensions of a ClientHello. */
  method ParseExtensions(p: Parser) returns (r: Result<seq<Extension>>)
    requires p.Valid()
    modifies p
    ensures p.Valid() && r == ParseBlock(old(p.Rest()))
  {
    ExtensionsConsuming();
    hide Consuming, ParseItems, Extensions.ParseExtension;
    ghost var whole := ParseItems(EXTENSIONS, p.Rest(), |p.Rest()|);
    FirstOfItems(EXTENSIONS, p.Rest(), |p.Rest()|);
    var items: seq<Extension> := [];
    while |p.bytes| - p.index > 0
      invariant p.Valid()
      invariant ReadSoFar(EXTENSIONS, whole, items, p.Rest(), |p.Rest()|)
      decreases |p.Rest()|
    {
      ReadOne(EXTENSIONS, whole, items, p.Rest(), |p.Rest()|);
      var e :- ParseExtension(p);
      items := items + [e];
    }
    NoMoreItems(EXTENSIONS, whole, items, p.Rest());
    return Ok(items);
  }

  /** The message object. */
  class ClientHello {
    var major: nat
    var minor: nat
    var random: Bytes
    var sessionId: Bytes
    var cipherSuites: seq<nat>
    var compression: Bytes
    var extensions: Option<seq<Extension>>

    function Value(): Hello
      reads this
    {
      Hello(major, minor, random, sessionId, cipherSuites, compression, extensions)
    }

    constructor ()
      ensures Value() == Hello(0, 0, Zeros(32), [], [], [], None)
    {
      major, minor, random, sessionId := 0, 0, Zeros(32), [];
      cipherSuites, compression, extensions := [], [], None;
    }

    /** _write: fields into one writer, extensions into another. */
    method Write() returns (r: Result<Bytes>)
      ensures r == ClientHellos.Write(Value())
    {
      hide Encode, PutVar, WriteExtension;
      var w := new Writer();
      ghost var major', minor' := Encode(major, 1), Encode(minor, 1);
      var _ :- w.Add(major, 1);
      var _ :- w.Add(minor, 1);
      w.bytes := w.bytes + random;
      var _ :- w.AddVarBytes(sessionId, 1);
      var suites :- WriteSuites(cipherSuites);
      var _ :- w.AddVarBytes(suites, 2);
      var _ :- w.AddVarBytes(compression, 1);
      assert w.bytes == WriteHead(Value()).value by {
        RegroupSixFlat(major'.value, minor'.value, random, PutVar(sessionId, 1).value, PutVar(suites, 2).value, PutVar(compression, 1).value);
      }
      if extensions.Some? {
        var block :- WriteExtensions(extensions.value);
        var _ :- w.AddVarBytes(block, 2);
      } else {
        assert w.bytes + [] == w.bytes;
      }
      var header := new Writer();
      assert Encode(CLIENT_HELLO, 1) == Ok([CLIENT_HELLO]) by { OneByte(CLIENT_HELLO); }
      var _ := header.Add(CLIENT_HELLO, 1);
      var _ :- header.Add(|w.bytes|, 3);
      assert [] + [CLIENT_HELLO] == [CLIENT_HELLO];
      return Ok(header.bytes + w.bytes);
    }

    static method WriteSuites(suites: seq<nat>) returns (r: Result<Bytes>)
      ensures r == WriteItems(SUITES, suites)
    {
      r := WriteEach(SUITES, suites);
    }

    static method WriteExtensions(extensions: seq<Extension>) returns (r: Result<Bytes>)
      ensures r == WriteItems(EXTENSIONS, extensions)
    {
      r := WriteEach(EXTENSIONS, extensions);
    }

    /** The fields in front of the extensions. */
    method ParseFields(p: Parser) returns (r: Result<()>)
      requires p.Valid()
      modifies this, p`index
      ensures p.Valid() && p.index >= old(p.index) && extensions == old(extensions)
      ensures match ParseHead(old(p.Rest()))
              case Err(e) => r == Err(e)
              case Ok(t) => r == Ok(()) && Value().(extensions := None) == t.0 && p.Rest() == t.1
    {
      hide TakeInt, TakeVar, TakeBytes, TakeList, Faithful;
      NumbersFaithful(2);
      major :- p.Get(1);
      minor :- p.Get(1);
      random :- p.GetFixBytes(32);
      sessionId :- p.GetVarBytes(1);
      if |sessionId| > 32 { return Err(DecodeError); }
      cipherSuites :- p.GetVarList(2, 2);
      compression :- p.GetVarBytes(1);
      return Ok(());
    }

    /** parse: fields are set as they are read, so a failure leaves some of them behind, and a message without
        extensions leaves those that the object had. */
    method Parse(p: Parser) returns (r: Result<()>)
      requires p.Valid()
      modifies this, p
      ensures p.Valid()
      ensures match ClientHellos.Parse(old(p.Rest()))
              case Err(e) => r == Err(e)
              case Ok(t) =>
                && r == Ok(()) && p.Rest() == t.1
                && Value() == if t.0.extensions.Some? then t.0 else t.0.(extensions := old(extensions))
    {
      hide TakeInt, TakeBytes, ParseBlock, ParseHead;
      var _ :- p.StartLengthCheck(3);
      var _ :- ParseFields(p);
      var done :- p.AtLengthCheck();
      if !done {
        extensions := Some([]);
        var total :- p.Get(2);
        var block :- p.GetFixBytes(total);
        var inner := new Parser(block);
        var parsed :- ParseExtensions(inner);
        extensions := Some(parsed);
      }
      r := p.StopLengthCheck();
    }

    /** psk_truncate */
    method PskTruncate() returns (r: Result<Bytes>)
      ensures r == Truncate(Value())
    {
      hide ClientHellos.Write;
      if extensions.None? { return Err(TypeError); }
      if extensions.value == [] { return Err(IndexError); }
      var last := extensions.value[|extensions.value| - 1];
      if !last.Psk? { return Err(ValueError); }
      var bytes :- Write();
      if last.offer.None? { return Err(TypeError); }
      var binders := last.offer.value.binders;
      var length := 0;
      for i := 0 to |binders|
        invariant length + BinderBytes(binders[i..]) == BinderBytes(binders)
      {
        assert binders[i..][1..] == binders[i + 1..];
        length := length + |binders[i]| + 1;
      }
      assert binders[|binders|..] == [];
      length := length + 2;
      return Ok(if length <= |bytes| then bytes[..|bytes| - length] else []);
    }

    /** update_binders: each binder replaces the placeholder at its position as soon as it is known. */
    method UpdateBinders(hs: Hashing, transcript: Bytes, s: Secrets) returns (r: Result<()>)
      modifies this`extensions
      ensures (r, Value()) == PskBinding.UpdateBinders(hs, old(Value()), transcript, s)
    {
      hide Truncate, CalcBinder, ChooseKey, SignFrom;
      ghost var h := Value();
      if extensions.None? { return Err(TypeError); }
      if extensions.value == [] { return Err(IndexError); }
      var n := |extensions.value| - 1;
      if !extensions.value[n].Psk? { return Err(ValueError); }
      var tickets, master := TicketsOf(s), MasterOf(s);
      if tickets != [] && master == [] { return Err(ValueError); }
      var truncated :- PskTruncate();
      TruncatedOffers(h);
      var signed := transcript + truncated;
      var identities := extensions.value[n].offer.value.identities;
      var configs := s.configs;
      ghost var whole := SignFrom(hs, identities, configs, tickets, master, signed, OfferOf(h).binders, 0);
      WithBindersSame(h, h.extensions.value);
      for i := 0 to |identities|
        invariant Offers(Value()) && Value() == WithBinders(h, OfferOf(Value()).binders)
        invariant extensions.Some? && |extensions.value| == n + 1
        invariant SignFrom(hs, identities, configs, tickets, master, signed, OfferOf(Value()).binders, i) == whole
      {
        SignStep(hs, identities, configs, tickets, master, signed, OfferOf(Value()).binders, i);
        var chosen :- ChooseKey(hs, identities[i].identity, configs, tickets, master);
        var binder := CalcBinder(hs, chosen.0, signed);
        configs := chosen.1;
        var offer := extensions.value[n].offer.value;
        if i >= |offer.binders| { return Err(IndexError); }
        extensions := Some(extensions.value[n := Psk(Some(offer.(binders := offer.binders[i := binder])))]);
        WithBindersSame(Value(), extensions.value);
        assert Others(Value()) == Others(h);
      }
      SignEnd(hs, identities, configs, tickets, master, signed, OfferOf(Value()).binders);
      return Ok(());
    }

    /** verify_binder */
    method VerifyBinder(hs: Hashing, transcript: Bytes, position: nat, key: Key) returns (r: Result<()>)
      ensures r == PskBinding.VerifyBinder(hs, Value(), transcript, position, key)
    {
      hide Truncate, CalcBinder;
      if extensions.None? { return Err(TypeError); }
      if extensions.value == [] { return Err(IndexError); }
      var last := extensions.value[|extensions.value| - 1];
      if !last.Psk? { return Err(IllegalParameter); }
      var truncated :- PskTruncate();
      TruncatedOffers(Value());
      var binder := CalcBinder(hs, key, transcript + truncated);
      if position >= |last.offer.value.binders| { return Err(IndexError); }
      if binder != last.offer.value.binders[position] { return Err(IllegalParameter); }
      return Ok(());
    }
  }

  /** Write items one after the other. */
  method WriteEach<T>(codec: ItemCodec<T>, items: seq<T>) returns (r: Result<Bytes>)
    ensures r == WriteItems(codec, items)
  {
    var bytes: Bytes := [];
    assert items[0..] == items;
    if WriteItems(codec, items).Ok? { assert bytes + WriteItems(codec, items).value == WriteItems(codec, items).value; }
    for i := 0 to |items|
      invariant var later := WriteItems(codec, items[i..]);
                WriteItems(codec, items) == (if later.Ok? then Ok(bytes + later.value) else later)
    {
      assert items[i..][1..] == items[i + 1..];
      var later := WriteItems(codec, items[i + 1..]);
      var one :- codec.write(items[i]);
      if later.Ok? { assert bytes + (one + later.value) == (bytes + one) + later.value; }
      bytes := bytes + one;
    }
    assert items[|items|..] == [] && bytes + [] == bytes;
    return Ok(bytes);
  }

  lemma OneByte(x: Byte)
    ensures Encode(x, 1) == Ok([x])
  {
    assert Pow256(1) == 256;
    assert ToBE(x, 1) == ToBE(0, 0) + [x];
  }

  lemma RegroupSixFlat(a: Bytes, b: Bytes, c: Bytes, d: Bytes, e: Bytes, f: Bytes)
    ensures ((((([] + a) + b) + c) + d) + e) + f == a + (b + (c + (d + (e + f))))
  {
    assert [] + a == a;
    Regroup(a, b, c);
    Regroup(a, b + c, d);
    Regroup(b, c, d);
    Regroup(a, b + (c + d), e);
    Regroup(b, c + d, e);
    Regroup(c, d, e);
    Regroup(a, b + (c + (d + e)), f);
    Regroup(b, c + (d + e), f);
    Regroup(c, d + e, f);
    Regroup(d, e, f);
  }

  lemma WithBindersSame(h: Hello, extensions: seq<Extension>)
    requires Offers(h) && h.extensions == Some(extensions)
    ensures WithBinders(h, OfferOf(h).binders) == h
  {
    assert Others(h) + [extensions[|extensions| - 1]] == extensions;
  }

  lemma TruncatedOffers(h: Hello)
    requires Truncate(h).Ok?
    ensures Offers(h)
  {
    hide Write;
  }

  lemma SignStep(hs: Hashing, identities: seq<Identity>, configs: seq<PskConfig>, tickets: seq<Ticket>, master: Bytes,
                 signed: Bytes, binders: seq<Bytes>, i: nat)
    requires i < |identities|
    ensures SignFrom(hs, identities, configs, tickets, master, signed, binders, i) ==
              match ChooseKey(hs, identities[i].identity, configs, tickets, master)
              case Err(e) => (Err(e), binders)
              case Ok((key, rest)) =>
                if i >= |binders| then (Err(IndexError), binders)
                else SignFrom(hs, identities, rest, tickets, master, signed, binders[i := CalcBinder(hs, key, signed)], i + 1)
  {
    hide ChooseKey, CalcBinder;
  }

  lemma SignEnd(hs: Hashing, identities: seq<Identity>, configs: seq<PskConfig>, tickets: seq<Ticket>, master: Bytes,
                signed: Bytes, binders: seq<Bytes>)
    ensures SignFrom(hs, identities, configs, tickets, master, signed, binders, |identities|) == (Ok(()), binders)
  {
  }
}
