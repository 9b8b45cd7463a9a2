/** Extensions of the hello messages: nested lists behind their lengths. */
module Extensions {
  import opened Results
  import opened ByteStrings
  import opened Codec

  const SERVER_NAME := 0
  const STATUS_REQUEST := 5
  const CERT_TYPE := 9
  const SUPPORTED_GROUPS := 10
  const EC_POINT_FORMATS := 11
  const SRP := 12
  const SIGNATURE_ALGORITHMS := 13
  const HEARTBEAT := 15
  const ALPN := 16
  const CLIENT_HELLO_PADDING := 21
  const COMPRESS_CERTIFICATE := 27
  const RECORD_SIZE_LIMIT := 28
  const DELEGATED_CREDENTIAL := 34
  const SESSION_TICKET := 35
  const PRE_SHARED_KEY := 41
  const SUPPORTED_VERSIONS := 43
  const COOKIE := 44
  const PSK_KEY_EXCHANGE_MODES := 45
  const SIGNATURE_ALGORITHMS_CERT := 50
  const KEY_SHARE := 51
  const SUPPORTS_NPN := 13172
  const RENEGOTIATION_INFO := 0xff01

  datatype ServerName = ServerName(nameType: nat, name: Bytes)
  datatype Share = Share(group: nat, keyExchange: Bytes)
  datatype Identity = Identity(identity: Bytes, age: nat)
  datatype Offer = Offer(identities: seq<Identity>, binders: seq<Bytes>)

  /** Extensions that hold one list of numbers. */
  datatype NumbersKind = CertTypes | SupportedGroups | PointFormats | CertCompressions | PskModes {
    function Type(): nat {
      match this
      case CertTypes => CERT_TYPE
      case SupportedGroups => SUPPORTED_GROUPS
      case PointFormats => EC_POINT_FORMATS
      case CertCompressions => COMPRESS_CERTIFICATE
      case PskModes => PSK_KEY_EXCHANGE_MODES
    }

    function ElemLength(): (n: nat)
      ensures n >= 1
    {
      if SupportedGroups? || CertCompressions? then 2 else 1
    }

    function LengthLength(): (n: nat)
      ensures n >= 1
    {
      if SupportedGroups? then 2 else 1
    }
  }

  /** Extensions that hold one list of pairs of bytes. */
  datatype PairsKind = SignatureAlgorithms | SignatureAlgorithmsCert | DelegatedCredentials | SupportedVersions {
    function Type(): nat {
      match this
      case SignatureAlgorithms => SIGNATURE_ALGORITHMS
      case SignatureAlgorithmsCert => SIGNATURE_ALGORITHMS_CERT
      case DelegatedCredentials => DELEGATED_CREDENTIAL
      case SupportedVersions => SUPPORTED_VERSIONS
    }

    function LengthLength(): (n: nat)
      ensures n >= 1
    {
      if SupportedVersions? then 1 else 2
    }
  }

  /** Extensions that hold one number. */
  datatype NumberKind = Heartbeat | RecordSizeLimit {
    function Type(): nat {
      if Heartbeat? then HEARTBEAT else RECORD_SIZE_LIMIT
    }

    function Length(): (n: nat)
      ensures n >= 1
    {
      if Heartbeat? then 1 else 2
    }
  }

  /** Extensions that hold one byte string. */
  datatype StringKind = RenegotiationInfo | Cookie {
    function Type(): nat {
      if RenegotiationInfo? then RENEGOTIATION_INFO else COOKIE
    }

    function LengthLength(): (n: nat)
      ensures n >= 1
    {
      if RenegotiationInfo? then 1 else 2
    }
  }

  datatype Extension =
    | Sni(names: Option<seq<ServerName>>)
    | KeyShares(shares: Option<seq<Share>>)
    | Psk(offer: Option<Offer>)
    | Numbers(numbersKind: NumbersKind, numbers: Option<seq<nat>>)
    | Pairs(pairsKind: PairsKind, pairs: Option<seq<(nat, nat)>>)
    | Number(numberKind: NumberKind, number: Option<nat>)
    | Text(stringKind: StringKind, text: Option<Bytes>)
    | Srp(user: Option<Bytes>)
    | Npn(npnProtocols: Option<seq<Bytes>>)
    | Alpn(alpnProtocols: Option<seq<Bytes>>)
    | Padding(padding: Bytes)
    | StatusRequest(statusType: Option<nat>, responders: seq<Bytes>, requestExtensions: Bytes)
    | SessionTicket(ticket: Option<Bytes>)
    | Generic(extType: nat, data: Bytes)

  /** The classes that extensions are parsed by. */
  datatype Handler =
    | SniHandler | KeySharesHandler | PskHandler
    | NumbersHandler(numbersKind: NumbersKind) | PairsHandler(pairsKind: PairsKind)
    | NumberHandler(numberKind: NumberKind) | TextHandler(stringKind: StringKind)
    | SrpHandler | NpnHandler | AlpnHandler | PaddingHandler | StatusRequestHandler | SessionTicketHandler
    | NoHandler

  /** The table of handlers for a ClientHello; other types are kept as raw data. */
  function HandlerOf(t: nat): Handler {
    if t == SERVER_NAME then SniHandler
    else if t == STATUS_REQUEST then StatusRequestHandler
    else if t == CERT_TYPE then NumbersHandler(CertTypes)
    else if t == SUPPORTED_GROUPS then NumbersHandler(SupportedGroups)
    else if t == EC_POINT_FORMATS then NumbersHandler(PointFormats)
    else if t == SRP then SrpHandler
    else if t == SIGNATURE_ALGORITHMS then PairsHandler(SignatureAlgorithms)
    else if t == ALPN then AlpnHandler
    else if t == SUPPORTS_NPN then NpnHandler
    else if t == CLIENT_HELLO_PADDING then PaddingHandler
    else if t == RENEGOTIATION_INFO then TextHandler(RenegotiationInfo)
    else if t == HEARTBEAT then NumberHandler(Heartbeat)
    else if t == SUPPORTED_VERSIONS then PairsHandler(SupportedVersions)
    else if t == KEY_SHARE then KeySharesHandler
    else if t == SIGNATURE_ALGORITHMS_CERT then PairsHandler(SignatureAlgorithmsCert)
    else if t == PRE_SHARED_KEY then PskHandler
    else if t == PSK_KEY_EXCHANGE_MODES then NumbersHandler(PskModes)
    else if t == COOKIE then TextHandler(Cookie)
    else if t == RECORD_SIZE_LIMIT then NumberHandler(RecordSizeLimit)
    else if t == SESSION_TICKET then SessionTicketHandler
    else if t == COMPRESS_CERTIFICATE then NumbersHandler(CertCompressions)
    else if t == DELEGATED_CREDENTIAL then PairsHandler(DelegatedCredentials)
    else NoHandler
  }

  /** The registered types, with the bytes of an item and of a length in each. */
  lemma WireTable()
    ensures HandlerOf(0) == SniHandler && HandlerOf(5) == StatusRequestHandler && HandlerOf(12) == SrpHandler
    ensures HandlerOf(16) == AlpnHandler && HandlerOf(21) == PaddingHandler && HandlerOf(35) == SessionTicketHandler
    ensures HandlerOf(41) == PskHandler && HandlerOf(51) == KeySharesHandler && HandlerOf(13172) == NpnHandler
    ensures HandlerOf(9) == NumbersHandler(CertTypes) && (CertTypes.ElemLength(), CertTypes.LengthLength()) == (1, 1)
    ensures HandlerOf(10) == NumbersHandler(SupportedGroups) && (SupportedGroups.ElemLength(), SupportedGroups.LengthLength()) == (2, 2)
    ensures HandlerOf(11) == NumbersHandler(PointFormats) && (PointFormats.ElemLength(), PointFormats.LengthLength()) == (1, 1)
    ensures HandlerOf(27) == NumbersHandler(CertCompressions) && (CertCompressions.ElemLength(), CertCompressions.LengthLength()) == (2, 1)
    ensures HandlerOf(45) == NumbersHandler(PskModes) && (PskModes.ElemLength(), PskModes.LengthLength()) == (1, 1)
    ensures HandlerOf(13) == PairsHandler(SignatureAlgorithms) && SignatureAlgorithms.LengthLength() == 2
    ensures HandlerOf(50) == PairsHandler(SignatureAlgorithmsCert) && SignatureAlgorithmsCert.LengthLength() == 2
    ensures HandlerOf(34) == PairsHandler(DelegatedCredentials) && DelegatedCredentials.LengthLength() == 2
    ensures HandlerOf(43) == PairsHandler(SupportedVersions) && SupportedVersions.LengthLength() == 1
    ensures HandlerOf(15) == NumberHandler(Heartbeat) && Heartbeat.Length() == 1
    ensures HandlerOf(28) == NumberHandler(RecordSizeLimit) && RecordSizeLimit.Length() == 2
    ensures HandlerOf(44) == TextHandler(Cookie) && Cookie.LengthLength() == 2
    ensures HandlerOf(0xff01) == TextHandler(RenegotiationInfo) && RenegotiationInfo.LengthLength() == 1
  {
  }

  //
  // Items
  //

  function WriteName(x: ServerName): Result<Bytes> {
    var t :- Encode(x.nameType, 1);
    var name :- PutVar(x.name, 2);
    Ok(t + name)
  }

  function ParseName(s: Bytes): Result<(ServerName, Bytes)> {
    var (t, rest) :- TakeInt(1, s);
    var (name, rest') :- TakeVar(2, rest);
    Ok((ServerName(t, name), rest'))
  }

  function WriteShare(x: Share): Result<Bytes> {
    var group :- Encode(x.group, 2);
    var key :- PutVar(x.keyExchange, 2);
    Ok(group + key)
  }

  function ParseShare(s: Bytes): Result<(Share, Bytes)> {
    var (group, rest) :- TakeInt(2, s);
    var (key, rest') :- TakeVar(2, rest);
    Ok((Share(group, key), rest'))
  }

  function WriteIdentity(x: Identity): Result<Bytes> {
    var identity :- PutVar(x.identity, 2);
    var age :- Encode(x.age, 4);
    Ok(identity + age)
  }

  function ParseIdentity(s: Bytes): Result<(Identity, Bytes)> {
    var (identity, rest) :- TakeVar(2, s);
    var (age, rest') :- TakeInt(4, rest);
    Ok((Identity(identity, age), rest'))
  }

  const NAMES := ItemCodec(WriteName, ParseName)
  const SHARES := ItemCodec(WriteShare, ParseShare)
  const IDENTITIES := ItemCodec(WriteIdentity, ParseIdentity)
  const BINDERS := StringCodec(1)
  const PROTOCOLS := StringCodec(1)
  const RESPONDERS := StringCodec(2)

  /** Two parts written one after the other are read one after the other. */
  lemma PairBack(x: nat, n: nat, data: Bytes, k: nat, rest: Bytes)
    requires Encode(x, n).Ok? && PutVar(data, k).Ok?
    ensures var s := Encode(x, n).value + PutVar(data, k).value + rest;
            && TakeInt(n, s) == Ok((x, PutVar(data, k).value + rest))
            && TakeVar(k, PutVar(data, k).value + rest) == Ok((data, rest))
  {
    var a, b := Encode(x, n).value, PutVar(data, k).value;
    assert a + b + rest == a + (b + rest);
    TakeIntBack(x, n, b + rest);
    TakeVarBack(data, k, rest);
  }

  lemma PairOnly(n: nat, k: nat, s: Bytes)
    requires TakeInt(n, s).Ok? && TakeVar(k, TakeInt(n, s).value.1).Ok? && n >= 1
    ensures var (x, mid) := TakeInt(n, s).value;
            var (data, rest) := TakeVar(k, mid).value;
            Encode(x, n).Ok? && PutVar(data, k).Ok? && s == (Encode(x, n).value + PutVar(data, k).value) + rest && |rest| < |s|
  {
    TakeIntOnly(n, s);
    var (x, mid) := TakeInt(n, s).value;
    TakeVarOnly(k, mid);
    var (data, rest) := TakeVar(k, mid).value;
    hide Pow256, ToBE, TakeInt, TakeVar;
    assert ToBE(x, n) + (PutVar(data, k).value + rest) == (ToBE(x, n) + PutVar(data, k).value) + rest;
  }

  lemma NamesFaithful()
    ensures Faithful(NAMES)
  {
    forall x: ServerName, rest: Bytes ensures Rereads(NAMES, x, rest) {
      if WriteName(x).Ok? { PairBack(x.nameType, 1, x.name, 2, rest); }
    }
    forall s: Bytes ensures ReadsExactly(NAMES, s) {
      if ParseName(s).Ok? { PairOnly(1, 2, s); }
    }
    AllReadExactly(NAMES);
  }

  lemma SharesFaithful()
    ensures Faithful(SHARES)
  {
    forall x: Share, rest: Bytes ensures Rereads(SHARES, x, rest) {
      if WriteShare(x).Ok? { PairBack(x.group, 2, x.keyExchange, 2, rest); }
    }
    forall s: Bytes ensures ReadsExactly(SHARES, s) {
      if ParseShare(s).Ok? { PairOnly(2, 2, s); }
    }
    AllReadExactly(SHARES);
  }

  lemma IdentityBack(x: Identity, rest: Bytes)
    requires WriteIdentity(x).Ok?
    ensures ParseIdentity(WriteIdentity(x).value + rest) == Ok((x, rest))
  {
    var a, b := PutVar(x.identity, 2).value, Encode(x.age, 4).value;
    assert a + b + rest == a + (b + rest);
    TakeVarBack(x.identity, 2, b + rest);
    TakeIntBack(x.age, 4, rest);
  }

  lemma IdentityOnly(s: Bytes)
    requires ParseIdentity(s).Ok?
    ensures var (x, rest) := ParseIdentity(s).value;
            WriteIdentity(x).Ok? && s == WriteIdentity(x).value + rest && |rest| < |s|
  {
    TakeVarOnly(2, s);
    var (identity, mid) := TakeVar(2, s).value;
    TakeIntOnly(4, mid);
    var (age, rest) := TakeInt(4, mid).value;
    hide Pow256, ToBE, TakeInt, TakeVar, PutVar;
    var a, b := PutVar(identity, 2).value, ToBE(age, 4);
    assert a + (b + rest) == (a + b) + rest;
  }

  lemma IdentitiesFaithful()
    ensures Faithful(IDENTITIES)
  {
    forall x: Identity, rest: Bytes ensures Rereads(IDENTITIES, x, rest) {
      if WriteIdentity(x).Ok? { IdentityBack(x, rest); }
    }
    forall s: Bytes ensures ReadsExactly(IDENTITIES, s) {
      if ParseIdentity(s).Ok? { IdentityOnly(s); }
    }
    AllReadExactly(IDENTITIES);
  }

  //
  // Payloads
  //

  function ExtType(e: Extension): nat {
    match e
    case Sni(_) => SERVER_NAME
    case KeyShares(_) => KEY_SHARE
    case Psk(_) => PRE_SHARED_KEY
    case Numbers(k, _) => k.Type()
    case Pairs(k, _) => k.Type()
    case Number(k, _) => k.Type()
    case Text(k, _) => k.Type()
    case Srp(_) => SRP
    case Npn(_) => SUPPORTS_NPN
    case Alpn(_) => ALPN
    case Padding(_) => CLIENT_HELLO_PADDING
    case StatusRequest(_, _, _) => STATUS_REQUEST
    case SessionTicket(_) => SESSION_TICKET
    case Generic(t, _) => t
  }

  function OfferPayload(offer: Offer): Result<Bytes> {
    var identities :- PutList(IDENTITIES, offer.identities, 2);
    var binders :- PutList(BINDERS, offer.binders, 2);
    Ok(identities + binders)
  }

  function StatusPayload(statusType: nat, responders: seq<Bytes>, requestExtensions: Bytes): Result<Bytes> {
    var t :- Encode(statusType, 1);
    var list :- PutList(RESPONDERS, responders, 2);
    var extensions :- PutVar(requestExtensions, 2);
    Ok(t + (list + extensions))
  }

  /** extData: key shares that are not set cannot be written, other values that are not set leave it empty. */
  function Payload(e: Extension): Result<Bytes> {
    match e
    case Sni(names) => if names.None? then Ok([]) else PutList(NAMES, names.value, 2)
    case KeyShares(shares) => if shares.None? then Err(TypeError) else PutList(SHARES, shares.value, 2)
    case Psk(offer) => if offer.None? then Ok([]) else OfferPayload(offer.value)
    case Numbers(k, numbers) =>
      if numbers.None? then Ok([]) else PutList(NumberCodec(k.ElemLength()), numbers.value, k.LengthLength())
    case Pairs(k, pairs) => if pairs.None? then Ok([]) else PutList(PAIRS, pairs.value, k.LengthLength())
    case Number(k, number) => if number.None? then Ok([]) else Encode(number.value, k.Length())
    case Text(k, text) => if text.None? then Ok([]) else PutVar(text.value, k.LengthLength())
    case Srp(user) => if user.None? then Ok([]) else PutVar(user.value, 1)
    case Npn(protocols) => if protocols.None? then Ok([]) else WriteItems(PROTOCOLS, protocols.value)
    case Alpn(protocols) => if protocols.None? then Ok([]) else PutList(PROTOCOLS, protocols.value, 2)
    case Padding(padding) => Ok(padding)
    case StatusRequest(t, list, extensions) => if t.None? then Ok([]) else StatusPayload(t.value, list, extensions)
    case SessionTicket(ticket) => Ok(if ticket.None? then [] else ticket.value)
    case Generic(_, data) => Ok(data)
  }

  function ParseSni(data: Bytes): Result<Extension> {
    NamesFaithful();
    if data == [] then Ok(Sni(None))
    else
      var names :- TakeWholeList(NAMES, data, 2);
      Ok(Sni(Some(names)))
  }

  function ParseKeyShares(data: Bytes): Result<Extension> {
    SharesFaithful();
    if data == [] then Ok(KeyShares(None))
    else
      var shares :- TakeWholeList(SHARES, data, 2);
      Ok(KeyShares(Some(shares)))
  }

  function ParsePsk(data: Bytes): Result<Extension> {
    IdentitiesFaithful();
    StringsFaithful(1);
    if data == [] then Ok(Psk(None))
    else
      var (identities, rest) :- TakeList(IDENTITIES, data, 2);
      var binders :- TakeWholeList(BINDERS, rest, 2);
      Ok(Psk(Some(Offer(identities, binders))))
  }

  function ParseNumbers(k: NumbersKind, data: Bytes): Result<Extension> {
    NumbersFaithful(k.ElemLength());
    if data == [] then Ok(Numbers(k, None))
    else
      var numbers :- TakeWholeList(NumberCodec(k.ElemLength()), data, k.LengthLength());
      Ok(Numbers(k, Some(numbers)))
  }

  function ParsePairs(k: PairsKind, data: Bytes): Result<Extension> {
    PairsFaithful();
    if data == [] then Ok(Pairs(k, None))
    else
      var pairs :- TakeWholeList(PAIRS, data, k.LengthLength());
      Ok(Pairs(k, Some(pairs)))
  }

  /** A heartbeat extension has to have its number. */
  function ParseNumber(k: NumberKind, data: Bytes): Result<Extension> {
    if data == [] then if k.Heartbeat? then Err(DecodeError) else Ok(Number(k, None))
    else
      var (number, rest) :- TakeInt(k.Length(), data);
      Whole(Number(k, Some(number)), rest)
  }

  function ParseText(k: StringKind, data: Bytes): Result<Extension> {
    if data == [] then Ok(Text(k, None))
    else
      var (text, rest) :- TakeVar(k.LengthLength(), data);
      Whole(Text(k, Some(text)), rest)
  }

  /** What follows the user name is not looked at. */
  function ParseSrp(data: Bytes): Result<Extension> {
    var (user, _) :- TakeVar(1, data);
    Ok(Srp(Some(user)))
  }

  function ParseNpn(data: Bytes): Result<Extension> {
    StringsFaithful(1);
    var (protocols, _) :- ParseItems(PROTOCOLS, data, |data|);
    Ok(Npn(Some(protocols)))
  }

  function ParseAlpn(data: Bytes): Result<Extension> {
    StringsFaithful(1);
    var protocols :- TakeWholeList(PROTOCOLS, data, 2);
    Ok(Alpn(Some(protocols)))
  }

  function ParseStatusRequest(data: Bytes): Result<Extension> {
    StringsFaithful(2);
    if data == [] then Ok(StatusRequest(None, [], []))
    else
      var (t, rest) :- TakeInt(1, data);
      var (responders, rest') :- TakeList(RESPONDERS, rest, 2);
      var (extensions, rest'') :- TakeVar(2, rest');
      Whole(StatusRequest(Some(t), responders, extensions), rest'')
  }

  function ParsePayload(t: nat, data: Bytes): Result<Extension> {
    match HandlerOf(t)
    case SniHandler => ParseSni(data)
    case KeySharesHandler => ParseKeyShares(data)
    case PskHandler => ParsePsk(data)
    case NumbersHandler(k) => ParseNumbers(k, data)
    case PairsHandler(k) => ParsePairs(k, data)
    case NumberHandler(k) => ParseNumber(k, data)
    case TextHandler(k) => ParseText(k, data)
    case SrpHandler => ParseSrp(data)
    case NpnHandler => ParseNpn(data)
    case AlpnHandler => ParseAlpn(data)
    case PaddingHandler => Ok(Padding(data))
    case StatusRequestHandler => ParseStatusRequest(data)
    case SessionTicketHandler => Ok(SessionTicket(Some(data)))
    case NoHandler => Ok(Generic(t, data))
  }

  /** What an extension has to be to survive: raw data needs a type without a handler, and some values that are
      not set cannot be told from others, or not be read at all. */
  predicate Recoverable(e: Extension) {
    match e
    case Generic(t, _) => HandlerOf(t).NoHandler?
    case Number(k, number) => k.Heartbeat? ==> number.Some?
    case Srp(user) => user.Some?
    case Npn(protocols) => protocols.Some?
    case Alpn(protocols) => protocols.Some?
    case StatusRequest(t, responders, extensions) => t.None? ==> responders == [] && extensions == []
    case SessionTicket(ticket) => ticket.Some?
    case Sni(_) => true
    case KeyShares(_) => true
    case Psk(_) => true
    case Numbers(_, _) => true
    case Pairs(_, _) => true
    case Text(_, _) => true
    case Padding(_) => true
  }

  /** Bytes behind the user name of an SRP extension. */
  predicate Trailing(t: nat, data: Bytes) {
    t == SRP && data != [] && data[0] < |data| - 1
  }

  //
  // Writing, then reading
  //

  lemma ListsBack(e: Extension)
    requires Payload(e).Ok? && (e.Sni? || e.KeyShares? || e.Numbers? || e.Pairs? || (e.Alpn? && e.alpnProtocols.Some?))
    ensures ParsePayload(ExtType(e), Payload(e).value) == Ok(e)
  {
    hide PutList, TakeWholeList, Faithful;
    match e
    case Sni(names) =>
      NamesFaithful();
      if names.Some? { WholeListBack(NAMES, names.value, 2); }
    case KeyShares(shares) =>
      SharesFaithful();
      WholeListBack(SHARES, shares.value, 2);
    case Numbers(k, numbers) =>
      NumbersFaithful(k.ElemLength());
      if numbers.Some? { WholeListBack(NumberCodec(k.ElemLength()), numbers.value, k.LengthLength()); }
    case Pairs(k, pairs) =>
      PairsFaithful();
      if pairs.Some? { WholeListBack(PAIRS, pairs.value, k.LengthLength()); }
    case Alpn(protocols) =>
      StringsFaithful(1);
      WholeListBack(PROTOCOLS, protocols.value, 2);
  }

  lemma OfferBack(offer: Offer)
    requires OfferPayload(offer).Ok?
    ensures ParsePsk(OfferPayload(offer).value) == Ok(Psk(Some(offer)))
  {
    hide PutList, TakeList, TakeWholeList, Consuming, Reversible, Exact, Writable;
    IdentitiesFaithful();
    StringsFaithful(1);
    var a, b := PutList(IDENTITIES, offer.identities, 2).value, PutList(BINDERS, offer.binders, 2).value;
    ListThenBack(IDENTITIES, offer.identities, 2, b);
    WholeListBack(BINDERS, offer.binders, 2);
    WholeListBack(IDENTITIES, offer.identities, 2);
    assert a + b != [];
  }

  lemma ListThenBack<T(!new)>(codec: ItemCodec<T>, items: seq<T>, lengthLength: nat, after: Bytes)
    requires Faithful(codec) && PutList(codec, items, lengthLength).Ok?
    ensures TakeList(codec, PutList(codec, items, lengthLength).value + after, lengthLength) == Ok((items, after))
  {
    TakeListBack(codec, items, lengthLength, after);
  }

  lemma NumberBack(k: NumberKind, x: nat)
    requires Encode(x, k.Length()).Ok?
    ensures ParseNumber(k, Encode(x, k.Length()).value) == Ok(Number(k, Some(x)))
  {
    TakeIntBack(x, k.Length(), []);
    assert Encode(x, k.Length()).value + [] == Encode(x, k.Length()).value;
  }

  lemma TextBack(b: Bytes, n: nat)
    requires PutVar(b, n).Ok? && n >= 1
    ensures var w := PutVar(b, n).value; w != [] && TakeVar(n, w) == Ok((b, []))
  {
    TakeVarBack(b, n, []);
    assert PutVar(b, n).value + [] == PutVar(b, n).value;
    hide ToBE, Pow256;
  }

  lemma NpnBack(protocols: seq<Bytes>)
    requires WriteItems(PROTOCOLS, protocols).Ok?
    ensures ParseNpn(WriteItems(PROTOCOLS, protocols).value) == Ok(Npn(Some(protocols)))
  {
    StringsFaithful(1);
    var w := WriteItems(PROTOCOLS, protocols).value;
    ItemsBack(PROTOCOLS, protocols, []);
    assert w + [] == w;
  }

  lemma StatusBack(t: nat, responders: seq<Bytes>, extensions: Bytes)
    requires StatusPayload(t, responders, extensions).Ok?
    ensures ParseStatusRequest(StatusPayload(t, responders, extensions).value)
         == Ok(StatusRequest(Some(t), responders, extensions))
  {
    StringsFaithful(2);
    var b, d := PutList(RESPONDERS, responders, 2).value, PutVar(extensions, 2).value;
    TakeIntBack(t, 1, b + d);
    ListThenBack(RESPONDERS, responders, 2, d);
    TextBack(extensions, 2);
    hide TakeInt, TakeVar, TakeList, PutList, PutVar, ToBE;
  }

  /** Payloads read back as what they were written from. */
  lemma PayloadBack(e: Extension)
    requires Payload(e).Ok? && Recoverable(e)
    ensures ParsePayload(ExtType(e), Payload(e).value) == Ok(e)
  {
    hide OfferPayload, StatusPayload, PutList, PutVar, Encode, TakeInt, TakeVar, TakeList, TakeWholeList, WriteItems,
         ParseItems;
    if e.Sni? || e.KeyShares? || e.Numbers? || e.Pairs? || e.Alpn? {
      ListsBack(e);
    } else if e.Psk? && e.offer.Some? {
      OfferBack(e.offer.value);
    } else if e.Number? && e.number.Some? {
      NumberBack(e.numberKind, e.number.value);
    } else if e.Text? && e.text.Some? {
      TextBack(e.text.value, e.stringKind.LengthLength());
    } else if e.Srp? {
      TextBack(e.user.value, 1);
    } else if e.Npn? {
      NpnBack(e.npnProtocols.value);
    } else if e.StatusRequest? && e.statusType.Some? {
      StatusBack(e.statusType.value, e.responders, e.requestExtensions);
    }
  }

  //
  // Reading, then writing
  //

  lemma ListsOnly(t: nat, data: Bytes)
    requires ParsePayload(t, data).Ok? && data != []
    requires var h := HandlerOf(t);
             h.SniHandler? || h.KeySharesHandler? || h.NumbersHandler? || h.PairsHandler? || h.AlpnHandler?
    ensures var e := ParsePayload(t, data).value;
            ExtType(e) == t && Recoverable(e) && e != KeyShares(None) && Payload(e) == Ok(data)
  {
    hide PutList, TakeWholeList, Faithful;
    var h := HandlerOf(t);
    if h.SniHandler? {
      NamesFaithful();
      WholeListOnly(NAMES, data, 2);
    } else if h.KeySharesHandler? {
      SharesFaithful();
      WholeListOnly(SHARES, data, 2);
    } else if h.NumbersHandler? {
      NumbersFaithful(h.numbersKind.ElemLength());
      WholeListOnly(NumberCodec(h.numbersKind.ElemLength()), data, h.numbersKind.LengthLength());
    } else if h.PairsHandler? {
      PairsFaithful();
      WholeListOnly(PAIRS, data, h.pairsKind.LengthLength());
    } else {
      StringsFaithful(1);
      WholeListOnly(PROTOCOLS, data, 2);
    }
  }

  lemma OfferOnly(data: Bytes)
    requires ParsePsk(data).Ok? && data != []
    ensures var e := ParsePsk(data).value; e.Psk? && Payload(e) == Ok(data)
  {
    hide PutList, TakeList, TakeWholeList, Consuming, Reversible, Exact, Writable;
    IdentitiesFaithful();
    StringsFaithful(1);
    TakeListOnly(IDENTITIES, data, 2);
    WholeListOnly(BINDERS, TakeList(IDENTITIES, data, 2).value.1, 2);
  }

  lemma NumberOnly(k: NumberKind, data: Bytes)
    requires ParseNumber(k, data).Ok? && data != []
    ensures var e := ParseNumber(k, data).value; e.Number? && e.numberKind == k && e.number.Some? && Payload(e) == Ok(data)
  {
    hide Pow256, ToBE, TakeInt;
    TakeIntOnly(k.Length(), data);
    var x := TakeInt(k.Length(), data).value.0;
    assert ToBE(x, k.Length()) + [] == ToBE(x, k.Length());
  }

  lemma TextOnly(data: Bytes, n: nat)
    requires TakeVar(n, data).Ok?
    ensures var (b, rest) := TakeVar(n, data).value;
            PutVar(b, n).Ok? && data == PutVar(b, n).value + rest && (rest == [] ==> PutVar(b, n) == Ok(data))
  {
    TakeVarOnly(n, data);
    hide TakeVar, PutVar;
    var (b, rest) := TakeVar(n, data).value;
    assert PutVar(b, n).value + [] == PutVar(b, n).value;
  }

  lemma SrpOnly(data: Bytes)
    requires ParseSrp(data).Ok?
    ensures var e := ParseSrp(data).value;
            && e.Srp? && e.user.Some? && Payload(e).Ok?
            && if Trailing(SRP, data) then |Payload(e).value| < |data| else Payload(e).value == data
  {
    TextOnly(data, 1);
    var (user, rest) := TakeVar(1, data).value;
    FirstIsLength(data);
    hide FromBE, ToBE, Pow256;
  }

  lemma FirstIsLength(data: Bytes)
    requires data != []
    ensures FromBE(data[..1]) == data[0]
  {
    assert FromBE(data[..1]) == 256 * FromBE(data[..1][..0]) + data[0];
  }

  lemma NpnOnly(data: Bytes)
    requires ParseNpn(data).Ok?
    ensures var e := ParseNpn(data).value; e.Npn? && e.npnProtocols.Some? && Payload(e) == Ok(data)
  {
    hide ParseItems, WriteItems, Reversible, Exact, Writable;
    StringsFaithful(1);
    ItemsOnly(PROTOCOLS, data, |data|);
    var (protocols, rest) := ParseItems(PROTOCOLS, data, |data|).value;
    var w := WriteItems(PROTOCOLS, protocols).value;
    assert w == data by {
      assert |w + rest| == |w| + |rest|;
      assert w + [] == w;
    }
  }

  lemma StatusOnly(data: Bytes)
    requires ParseStatusRequest(data).Ok? && data != []
    ensures var e := ParseStatusRequest(data).value; e.StatusRequest? && e.statusType.Some? && Payload(e) == Ok(data)
  {
    hide Pow256, FromBE, ToBE, PutVar, PutList, TakeInt, TakeVar, TakeList, Faithful;
    StringsFaithful(2);
    TakeIntOnly(1, data);
    var (t, rest) := TakeInt(1, data).value;
    ListOnly(RESPONDERS, rest, 2);
    var (responders, rest') := TakeList(RESPONDERS, rest, 2).value;
    TextOnly(rest', 2);
    assert StatusPayload(t, responders, TakeVar(2, rest').value.0) == Ok(data);
  }

  lemma ListOnly<T(!new)>(codec: ItemCodec<T>, data: Bytes, lengthLength: nat)
    requires Faithful(codec) && TakeList(codec, data, lengthLength).Ok?
    ensures var (items, rest) := TakeList(codec, data, lengthLength).value;
            var w := PutList(codec, items, lengthLength);
            w.Ok? && data == w.value + rest
  {
    TakeListOnly(codec, data, lengthLength);
  }

  lemma NoEmptyAlpn()
    ensures ParseAlpn([]).Err?
  {
    StringsFaithful(1);
  }

  /** Whatever reads as an extension is its own encoding, but for unset key shares, which cannot be written, and
      for bytes behind the user name of SRP, which get lost. */
  lemma PayloadOnly(t: nat, data: Bytes)
    requires ParsePayload(t, data).Ok?
    ensures var e := ParsePayload(t, data).value;
            && ExtType(e) == t && Recoverable(e)
            && (Payload(e).Err? <==> e == KeyShares(None))
            && (Payload(e).Ok? ==> if Trailing(t, data) then |Payload(e).value| < |data| else Payload(e).value == data)
  {
    hide OfferPayload, StatusPayload, PutList, PutVar, Encode, TakeInt, TakeVar, TakeList, TakeWholeList, WriteItems,
         ParseItems;
    var h := HandlerOf(t);
    if h.SrpHandler? {
      SrpOnly(data);
    } else if h.NpnHandler? {
      NpnOnly(data);
    } else if data != [] {
      if h.SniHandler? || h.KeySharesHandler? || h.NumbersHandler? || h.PairsHandler? || h.AlpnHandler? {
        ListsOnly(t, data);
      } else if h.PskHandler? {
        OfferOnly(data);
      } else if h.NumberHandler? {
        NumberOnly(h.numberKind, data);
      } else if h.TextHandler? {
        TextOnly(data, h.stringKind.LengthLength());
      } else if h.StatusRequestHandler? {
        StatusOnly(data);
      }
    } else if h.AlpnHandler? {
      NoEmptyAlpn();
    }
  }

  //
  // Extensions
  //

  function WriteExtension(e: Extension): Result<Bytes> {
    var t :- Encode(ExtType(e), 2);
    var payload :- Payload(e);
    var data :- PutVar(payload, 2);
    Ok(t + data)
  }

  function ParseExtension(s: Bytes): Result<(Extension, Bytes)> {
    var (t, rest) :- TakeInt(2, s);
    var (data, rest') :- TakeVar(2, rest);
    var e :- ParsePayload(t, data);
    Ok((e, rest'))
  }

  const EXTENSIONS := ItemCodec(WriteExtension, ParseExtension)

  /** Items byte for byte, each length in front of what it counts. */
  lemma ItemsLaidOut(name: ServerName, share: Share, identity: Identity)
    ensures WriteName(name).Ok? ==>
              var b := WriteName(name).value;
              |b| == 3 + |name.name| && b[0] == name.nameType && FromBE(b[1..3]) == |name.name| && b[3..] == name.name
    ensures WriteShare(share).Ok? ==>
              var b := WriteShare(share).value;
              |b| == 4 + |share.keyExchange| && FromBE(b[..2]) == share.group && FromBE(b[2..4]) == |share.keyExchange|
              && b[4..] == share.keyExchange
    ensures WriteIdentity(identity).Ok? ==>
              var (b, n) := (WriteIdentity(identity).value, |identity.identity|);
              |b| == 6 + n && FromBE(b[..2]) == n && b[2..2 + n] == identity.identity && FromBE(b[2 + n..]) == identity.age
  {
    hide Pow256, ToBE, FromBE;
    if WriteName(name).Ok? {
      var b, t, l := WriteName(name).value, Encode(name.nameType, 1).value, Encode(|name.name|, 2).value;
      OneByteOf(t);
      assert b == t + (l + name.name) && b[1..3] == l;
    }
    if WriteShare(share).Ok? {
      var b, g, l := WriteShare(share).value, Encode(share.group, 2).value, Encode(|share.keyExchange|, 2).value;
      assert b == g + (l + share.keyExchange) && b[..2] == g && b[2..4] == l;
    }
    if WriteIdentity(identity).Ok? {
      var b, l, a := WriteIdentity(identity).value, Encode(|identity.identity|, 2).value, Encode(identity.age, 4).value;
      assert b == (l + identity.identity) + a && b[..2] == l && b[2 + |identity.identity|..] == a;
    }
  }

  lemma OneByteOf(b: Bytes)
    requires |b| == 1
    ensures FromBE(b) == b[0]
  {
    FirstIsLength(b);
    assert b[..1] == b;
  }

  /** Type and length come in front of the payload. */
  lemma ExtensionBegins(e: Extension)
    requires WriteExtension(e).Ok?
    ensures var (b, payload) := (WriteExtension(e).value, Payload(e).value);
            |b| == 4 + |payload| && FromBE(b[..2]) == ExtType(e) && FromBE(b[2..4]) == |payload| && b[4..] == payload
  {
    hide Pow256, ToBE, FromBE, Payload, ExtType;
    var b, t, l := WriteExtension(e).value, Encode(ExtType(e), 2).value, Encode(|Payload(e).value|, 2).value;
    assert b == t + (l + Payload(e).value) && b[..2] == t && b[2..4] == l;
  }

  /** A written extension reads back, with what follows left, exactly if it is recoverable. */
  lemma ExtensionRoundTrip(e: Extension, rest: Bytes)
    requires WriteExtension(e).Ok?
    ensures ParseExtension(WriteExtension(e).value + rest) == Ok((e, rest)) <==> Recoverable(e)
  {
    PairBack(ExtType(e), 2, Payload(e).value, 2, rest);
    hide Payload, ParsePayload, TakeInt, TakeVar, PutVar, Recoverable;
    if Recoverable(e) {
      PayloadBack(e);
    } else if ParsePayload(ExtType(e), Payload(e).value).Ok? {
      PayloadOnly(ExtType(e), Payload(e).value);
    }
  }

  /** An extension at the start of s with bytes behind its user name. */
  predicate Loose(s: Bytes) {
    var t := TakeInt(2, s);
    t.Ok? && var data := TakeVar(2, t.value.1); data.Ok? && Trailing(t.value.0, data.value.0)
  }

  lemma ExtensionOnly(s: Bytes)
    requires ParseExtension(s).Ok?
    ensures var (e, rest) := ParseExtension(s).value;
            && |rest| < |s| && Recoverable(e) && (WriteExtension(e).Ok? <==> e != KeyShares(None))
            && (WriteExtension(e).Ok? ==>
                  var w := WriteExtension(e).value + rest; if Loose(s) then |w| < |s| else w == s)
  {
    PairOnly(2, 2, s);
    var (t, mid) := TakeInt(2, s).value;
    var (data, rest) := TakeVar(2, mid).value;
    PayloadOnly(t, data);
    var e := ParsePayload(t, data).value;
    if Payload(e).Ok? {
      ShorterFits(Payload(e).value, data);
    }
    hide Payload, ParsePayload, TakeInt, TakeVar, PutVar, Encode, Recoverable, Trailing;
  }

  lemma ShorterFits(a: Bytes, b: Bytes)
    requires |a| <= |b| && PutVar(b, 2).Ok?
    ensures PutVar(a, 2).Ok? && |PutVar(a, 2).value| == 2 + |a| && |PutVar(b, 2).value| == 2 + |b|
  {
    hide ToBE, Pow256;
  }

  lemma ExtensionsConsuming()
    ensures Consuming(EXTENSIONS)
  {
    forall s: Bytes ensures Progresses(EXTENSIONS, s) {
      if ParseExtension(s).Ok? { ExtensionOnly(s); }
    }
  }

  /** A user name of one byte with another byte behind it. */
  const LOOSE_PAYLOAD: Bytes := [1, 65, 66]
  const LOOSE_EXTENSION: Bytes := [0, 12, 0, 3] + LOOSE_PAYLOAD
  const TIDY_EXTENSION: Bytes := [0, 12, 0, 2, 1, 65]

  lemma LooseRead()
    ensures ParseExtension(LOOSE_EXTENSION) == Ok((Srp(Some([65])), []))
  {
    hide ToBE, FromBE, Pow256, TakeList, ParseItems;
    var s, data := LOOSE_EXTENSION, LOOSE_PAYLOAD;
    SmallNumber(12, [0, 12]);
    assert s[..2] == [0, 12] && s[2..][..2] == [0, 3] && s[2..][2..] == data;
    assert TakeVar(2, s[2..]) == Ok((data, [])) by {
      SmallNumber(3, [0, 3]);
      assert data[..3] == data && data[3..] == [];
    }
    assert TakeVar(1, data) == Ok(([65], [66])) by {
      OneByteNumber(1);
      assert data[..1] == [1] && data[1..][..1] == [65] && data[1..][1..] == [66];
    }
  }

  lemma LooseWritten()
    ensures WriteExtension(Srp(Some([65]))) == Ok(TIDY_EXTENSION)
  {
    hide ToBE, FromBE, Pow256;
    var user: Bytes, w: Bytes, t: Bytes, l: Bytes := [65], [1, 65], [0, 12], [0, 2];
    SmallNumber(12, t);
    SmallNumber(2, l);
    OneByteNumber(1);
    assert [1] + user == w && PutVar(user, 1) == Ok(w);
    assert PutVar(w, 2) == Ok(l + w);
    assert t + (l + w) == TIDY_EXTENSION;
  }

  /** The bytes behind the user name of an SRP extension are read, but not written again. */
  lemma TrailingBytesGetLost()
    ensures var p := ParseExtension(LOOSE_EXTENSION);
            p.Ok? && p.value.1 == [] && WriteExtension(p.value.0) == Ok(TIDY_EXTENSION) && TIDY_EXTENSION != LOOSE_EXTENSION
  {
    LooseRead();
    LooseWritten();
    hide ParseExtension, WriteExtension;
    assert |LOOSE_EXTENSION| == 7;
  }

  lemma OneByteNumber(x: Byte)
    ensures FromBE([x]) == x && Encode(x, 1) == Ok([x])
  {
    assert Pow256(1) == 256;
    FirstIsLength([x]);
    assert [x][..1] == [x];
    ToBEFromBE([x]);
  }

  lemma SmallNumber(x: Byte, b: Bytes)
    requires b == [0, x]
    ensures FromBE(b) == x && Encode(x, 2) == Ok(b)
  {
    assert Pow256(2) == 0x1_0000;
    assert b[..1] == [0] && [0][..0] == [];
    ToBEFromBE(b);
  }

  //
  // Blocks
  //

  /** The extensions of a whole block. */
  function ParseBlock(block: Bytes): Result<seq<Extension>> {
    ExtensionsConsuming();
    var (extensions, _) :- ParseItems(EXTENSIONS, block, |block|);
    Ok(extensions)
  }

  /** A block without bytes that reading drops. */
  predicate Tidy(block: Bytes)
    decreases |block|
  {
    ExtensionsConsuming();
    assert Progresses(EXTENSIONS, block);
    block == [] || (!Loose(block) && (ParseExtension(block).Ok? ==> Tidy(ParseExtension(block).value.1)))
  }

  lemma BlockStep(block: Bytes)
    requires block != []
    ensures match ParseExtension(block)
            case Err(e) => ParseBlock(block) == Err(e)
            case Ok((x, rest)) =>
              && |rest| < |block|
              && ParseBlock(block) == match ParseBlock(rest) case Err(e) => Err(e) case Ok(later) => Ok([x] + later)
  {
    ExtensionsConsuming();
    hide ParseExtension, WriteExtension;
    assert Progresses(EXTENSIONS, block);
  }

  /** What reads as a block of extensions is written again unless key shares are not set, and exactly as it was
      unless bytes were dropped. */
  lemma {:induction false} BlockOnly(block: Bytes)
    requires ParseBlock(block).Ok?
    ensures var extensions := ParseBlock(block).value;
            var w := WriteItems(EXTENSIONS, extensions);
            && (forall e :: e in extensions ==> Recoverable(e))
            && (w.Ok? <==> KeyShares(None) !in extensions)
            && (w.Ok? ==> if Tidy(block) then w.value == block else |w.value| < |block|)
    decreases |block|
  {
    hide ParseExtension, WriteExtension, Loose, Recoverable, ParseBlock;
    if block == [] {
      NothingParsed();
    } else {
      BlockStep(block);
      ExtensionOnly(block);
      var (e, rest) := ParseExtension(block).value;
      BlockOnly(rest);
      var later := ParseBlock(rest).value;
      assert ([e] + later)[1..] == later;
      TidyStep(block);
      if WriteExtension(e).Ok? && WriteItems(EXTENSIONS, later).Ok? {
        var first, w := WriteExtension(e).value, WriteItems(EXTENSIONS, later).value;
        assert |first + w| == |first| + |w| && |first + rest| == |first| + |rest|;
      }
    }
  }

  lemma TidyStep(block: Bytes)
    requires block != [] && ParseExtension(block).Ok? && |ParseExtension(block).value.1| < |block|
    ensures Tidy(block) <==> !Loose(block) && Tidy(ParseExtension(block).value.1)
  {
    hide ParseExtension, Loose;
  }

  lemma NothingParsed()
    ensures ParseBlock([]) == Ok([])
  {
  }

  lemma NeverEmpty(e: Extension)
    requires WriteExtension(e).Ok?
    ensures WriteExtension(e).value != []
  {
    hide ToBE, Pow256, Payload, PutVar;
  }

  /** A block of extensions reads back exactly if each of them does. */
  lemma BlockRoundTrip(extensions: seq<Extension>)
    requires WriteItems(EXTENSIONS, extensions).Ok?
    ensures ParseBlock(WriteItems(EXTENSIONS, extensions).value) == Ok(extensions)
            <==> forall e :: e in extensions ==> Recoverable(e)
  {
    ExtensionsConsuming();
    var b := WriteItems(EXTENSIONS, extensions).value;
    hide ParseExtension, WriteExtension, Recoverable, Tidy, ParseItems, WriteItems;
    if forall e :: e in extensions ==> Recoverable(e) {
      forall x, after {:trigger Rereads(EXTENSIONS, x, after)} | x in extensions ensures Rereads(EXTENSIONS, x, after) {
        if WriteExtension(x).Ok? {
          ExtensionRoundTrip(x, after);
          NeverEmpty(x);
        }
      }
      ItemsBack(EXTENSIONS, extensions, []);
      assert b + [] == b;
    } else if ParseBlock(b).Ok? {
      BlockOnly(b);
    }
  }
}
