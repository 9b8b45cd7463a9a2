/** PSK binders: a ClientHello signs its own truncation (section 4.2.11.2 of RFC 8446). */
module PskTruncation {
  import opened Results
  import opened ByteStrings
  import opened Codec
  import opened Extensions
  import opened ClientHellos

  /** The bytes that a list of binders takes, each with its length in front. */
  function BinderBytes(binders: seq<Bytes>): nat {
    if binders == [] then 0 else |binders[0]| + 1 + BinderBytes(binders[1..])
  }

  /** psk_truncate: the encoding without the list of binders, which the last extension has to end with. */
  function Truncate(h: Hello): Result<Bytes> {
    if h.extensions.None? then Err(TypeError)
    else if h.extensions.value == [] then Err(IndexError)
    else
      var last := h.extensions.value[|h.extensions.value| - 1];
      if !last.Psk? then Err(ValueError)
      else
        var bytes :- Write(h);
        if last.offer.None? then Err(TypeError)
        else
          var length := BinderBytes(last.offer.value.binders) + 2;
          Ok(if length <= |bytes| then bytes[..|bytes| - length] else [])
  }

  /** A hello that offers PSKs in its last extension. */
  predicate Offers(h: Hello) {
    && h.extensions.Some? && h.extensions.value != []
    && h.extensions.value[|h.extensions.value| - 1].Psk?
    && h.extensions.value[|h.extensions.value| - 1].offer.Some?
  }

  function OfferOf(h: Hello): Offer
    requires Offers(h)
  {
    h.extensions.value[|h.extensions.value| - 1].offer.value
  }

  function Others(h: Hello): seq<Extension>
    requires Offers(h)
  {
    h.extensions.value[..|h.extensions.value| - 1]
  }

  /** The same hello with other binders. */
  function WithBinders(h: Hello, binders: seq<Bytes>): (h': Hello)
    requires Offers(h)
    ensures Offers(h') && OfferOf(h') == OfferOf(h).(binders := binders) && Others(h') == Others(h)
  {
    h.(extensions := Some(Others(h) + [Psk(Some(OfferOf(h).(binders := binders)))]))
  }

  lemma {:induction false} BinderListLength(binders: seq<Bytes>)
    requires WriteItems(BINDERS, binders).Ok?
    ensures |WriteItems(BINDERS, binders).value| == BinderBytes(binders)
  {
    hide Pow256, ToBE;
    if binders != [] {
      BinderListLength(binders[1..]);
    }
  }

  lemma {:induction false} WriteLast<T>(codec: ItemCodec<T>, items: seq<T>, last: T)
    ensures WriteItems(codec, items + [last]).Ok? ==>
              && WriteItems(codec, items).Ok? && codec.write(last).Ok?
              && WriteItems(codec, items + [last]).value == WriteItems(codec, items).value + codec.write(last).value
  {
    if items == [] {
      assert ([] + [last])[1..] == [] && [] + [last] == [last];
      if codec.write(last).Ok? { assert codec.write(last).value + [] == [] + codec.write(last).value; }
    } else {
      WriteLast(codec, items[1..], last);
      assert (items + [last])[1..] == items[1..] + [last];
      if WriteItems(codec, items + [last]).Ok? {
        var a, b, e := codec.write(items[0]).value, WriteItems(codec, items[1..]).value, codec.write(last).value;
        assert a + (b + e) == (a + b) + e;
      }
    }
  }

  /** What precedes the binders: it depends on them through their total size alone. */
  function Prefix(head: Bytes, others: Bytes, identities: Bytes, total: nat): Bytes
    requires |head| + 8 + |others| + |identities| + total < Pow256(3)
    requires |others| + 6 + |identities| + total < Pow256(2)
  {
    assert Pow256(2) == 0x1_0000;
    var offer := |identities| + 2 + total;
    var block := |others| + 4 + offer;
    [CLIENT_HELLO] + (ToBE(|head| + 2 + block, 3) + (head + (ToBE(block, 2) + (others +
      (ToBE(PRE_SHARED_KEY, 2) + (ToBE(offer, 2) + identities))))))
  }

  function HeadBytes(h: Hello): Bytes
  {
    if WriteHead(h).Ok? then WriteHead(h).value else []
  }

  function OtherBytes(h: Hello): Bytes
    requires Offers(h)
  {
    var w := WriteItems(EXTENSIONS, Others(h));
    if w.Ok? then w.value else []
  }

  function IdentityBytes(h: Hello): Bytes
    requires Offers(h)
  {
    var w := PutList(IDENTITIES, OfferOf(h).identities, 2);
    if w.Ok? then w.value else []
  }

  predicate Fits(h: Hello)
    requires Offers(h)
  {
    var total := BinderBytes(OfferOf(h).binders);
    && |HeadBytes(h)| + 8 + |OtherBytes(h)| + |IdentityBytes(h)| + total < Pow256(3)
    && |OtherBytes(h)| + 6 + |IdentityBytes(h)| + total < Pow256(2)
  }

  lemma OfferWritten(offer: Offer)
    ensures Payload(Psk(Some(offer))) == OfferPayload(offer) && ExtType(Psk(Some(offer))) == PRE_SHARED_KEY
  {
    hide OfferPayload;
  }

  lemma OfferSizes(offer: Offer)
    requires WriteExtension(Psk(Some(offer))).Ok?
    ensures var identities := PutList(IDENTITIES, offer.identities, 2);
            var binders := WriteItems(BINDERS, offer.binders);
            var total := BinderBytes(offer.binders);
            && identities.Ok? && binders.Ok? && |binders.value| == total
            && total < Pow256(2) && |identities.value| + 2 + total < Pow256(2) && PRE_SHARED_KEY < Pow256(2)
  {
    hide Payload, HandlerOf, Pow256, ToBE, WriteItems;
    OfferWritten(offer);
    if WriteItems(BINDERS, offer.binders).Ok? { BinderListLength(offer.binders); }
  }

  /** The parts of the pre_shared_key extension. */
  lemma OfferParts(offer: Offer)
    requires WriteExtension(Psk(Some(offer))).Ok?
    ensures var identities := PutList(IDENTITIES, offer.identities, 2);
            var binders := WriteItems(BINDERS, offer.binders);
            var total := BinderBytes(offer.binders);
            && identities.Ok? && binders.Ok? && |binders.value| == total
            && total < Pow256(2) && |identities.value| + 2 + total < Pow256(2) && PRE_SHARED_KEY < Pow256(2)
            && WriteExtension(Psk(Some(offer))).value
            == (ToBE(PRE_SHARED_KEY, 2) + (ToBE(|identities.value| + 2 + total, 2) + identities.value))
               + (ToBE(total, 2) + binders.value)
  {
    hide Payload, HandlerOf, Pow256, ToBE, WriteItems, BinderBytes;
    OfferWritten(offer);
    OfferSizes(offer);
    var identities, binders := PutList(IDENTITIES, offer.identities, 2).value, WriteItems(BINDERS, offer.binders).value;
    var total := BinderBytes(offer.binders);
    var b := ToBE(total, 2) + binders;
    assert PutList(BINDERS, offer.binders, 2) == Ok(b);
    hide PutList;
    var t, l := ToBE(PRE_SHARED_KEY, 2), ToBE(|identities| + 2 + total, 2);
    assert t + (l + (identities + b)) == (t + (l + identities)) + b;
  }

  lemma LongRegroup(a: Bytes, b: Bytes, c: Bytes, d: Bytes, e: Bytes, x: Bytes, y: Bytes)
    ensures (a + b) + (c + (d + (e + (x + y)))) == (a + (b + (c + (d + (e + x))))) + y
  {
    Regroup(e, x, y);
    Regroup(d, e + x, y);
    Regroup(c, d + (e + x), y);
    Regroup(a, b, c + (d + (e + (x + y))));
    Regroup(b, c + (d + (e + x)), y);
    Regroup(a, b + (c + (d + (e + x))), y);
  }

  /** The block of extensions of a hello that offers PSKs. */
  lemma BlockSplits(h: Hello)
    requires Offers(h) && WriteTail(h).Ok?
    ensures var total, identities, others := BinderBytes(OfferOf(h).binders), IdentityBytes(h), OtherBytes(h);
            var offer := |identities| + 2 + total;
            && WriteItems(BINDERS, OfferOf(h).binders).Ok?
            && |WriteItems(BINDERS, OfferOf(h).binders).value| == total
            && |others| + 4 + offer < Pow256(2) && PRE_SHARED_KEY < Pow256(2)
            && WriteTail(h).value ==
                 ToBE(|others| + 4 + offer, 2) + (others + ((ToBE(PRE_SHARED_KEY, 2) + (ToBE(offer, 2) + identities))
                   + (ToBE(total, 2) + WriteItems(BINDERS, OfferOf(h).binders).value)))
  {
    hide Pow256, ToBE, WriteExtension, WriteItems;
    assert Pow256(2) == 0x1_0000 by { TwoBytes(); }
    var last := Psk(Some(OfferOf(h)));
    assert h.extensions.value == Others(h) + [last];
    WriteLast(EXTENSIONS, Others(h), last);
    OfferParts(OfferOf(h));
    hide PutList;
  }

  lemma TwoBytes()
    ensures Pow256(2) == 0x1_0000
  {
  }

  /** The encoding of a hello that offers PSKs: the prefix, then the list of binders. */
  lemma EncodingSplits(h: Hello)
    requires Offers(h) && Write(h).Ok?
    ensures Fits(h)
    ensures var total := BinderBytes(OfferOf(h).binders);
            && total < Pow256(2) && WriteItems(BINDERS, OfferOf(h).binders).Ok?
            && |WriteItems(BINDERS, OfferOf(h).binders).value| == total
            && Write(h).value
            == Prefix(HeadBytes(h), OtherBytes(h), IdentityBytes(h), total)
               + (ToBE(total, 2) + WriteItems(BINDERS, OfferOf(h).binders).value)
  {
    hide Pow256, ToBE, WriteTail, WriteHead, WriteItems, OtherBytes, IdentityBytes;
    BlockSplits(h);
    var head, others, identities := HeadBytes(h), OtherBytes(h), IdentityBytes(h);
    var total := BinderBytes(OfferOf(h).binders);
    var offer := |identities| + 2 + total;
    var block := |others| + 4 + offer;
    var x := ToBE(PRE_SHARED_KEY, 2) + (ToBE(offer, 2) + identities);
    var y := ToBE(total, 2) + WriteItems(BINDERS, OfferOf(h).binders).value;
    LongRegroup([CLIENT_HELLO], ToBE(|head| + 2 + block, 3), head, ToBE(block, 2), others, x, y);
  }

  /** Truncation cuts exactly at the list of binders. */
  lemma TruncationIsPrefix(h: Hello)
    requires Offers(h) && Write(h).Ok?
    ensures Fits(h)
    ensures Truncate(h) == Ok(Prefix(HeadBytes(h), OtherBytes(h), IdentityBytes(h), BinderBytes(OfferOf(h).binders)))
  {
    EncodingSplits(h);
    hide Pow256, ToBE, Prefix, WriteItems, HeadBytes, OtherBytes, IdentityBytes, Write;
    var total := BinderBytes(OfferOf(h).binders);
    var p := Prefix(HeadBytes(h), OtherBytes(h), IdentityBytes(h), total);
    var tail := ToBE(total, 2) + WriteItems(BINDERS, OfferOf(h).binders).value;
    assert (p + tail)[..|p|] == p;
  }

  lemma PrefixShowsLength(head: Bytes, others: Bytes, identities: Bytes, total: nat)
    requires |head| + 8 + |others| + |identities| + total < Pow256(3)
    requires |others| + 6 + |identities| + total < Pow256(2)
    ensures var p := Prefix(head, others, identities, total);
            |p| >= 4 && FromBE(p[1..4]) == |head| + 8 + |others| + |identities| + total
  {
    hide Pow256, FromBE, ToBE;
    var p := Prefix(head, others, identities, total);
    assert p[1..4] == ToBE(|head| + 8 + |others| + |identities| + total, 3);
  }

  /** Other binders leave the truncation as it was exactly if they take as many bytes. */
  lemma TruncationUnchangedIff(h: Hello, binders: seq<Bytes>)
    requires Offers(h) && Write(h).Ok? && Write(WithBinders(h, binders)).Ok?
    ensures Truncate(WithBinders(h, binders)) == Truncate(h) <==> BinderBytes(binders) == BinderBytes(OfferOf(h).binders)
  {
    var h' := WithBinders(h, binders);
    TruncationIsPrefix(h);
    TruncationIsPrefix(h');
    assert HeadBytes(h') == HeadBytes(h) by { SameHead(h); SameHead(h'); }
    var head, others, identities := HeadBytes(h), OtherBytes(h), IdentityBytes(h);
    PrefixShowsLength(head, others, identities, BinderBytes(OfferOf(h).binders));
    PrefixShowsLength(head, others, identities, BinderBytes(binders));
  }
}

/** Computing the binders and checking them. */
module PskBinding {
  import opened Results
  import opened ByteStrings
  import opened Primitives
  import opened KeySchedule
  import opened Codec
  import opened Extensions
  import opened ClientHellos
  import opened PskTruncation

  /** The hash functions and what is built on them. */
  datatype Hashing = Hashing(
    hmac: (Prf, Bytes, Bytes) -> Bytes,
    digest: (Prf, Bytes) -> Bytes,
    expandLabel: (Prf, Bytes, Bytes, Bytes, nat) -> Bytes)

  ghost predicate SoundHashing(hs: Hashing) {
    forall prf: Prf, key: Bytes, data: Bytes :: |hs.hmac(prf, key, data)| == PrfLength(prf)
  }

  const EXT_BINDER: Bytes := [101, 120, 116, 32, 98, 105, 110, 100, 101, 114]
  const RES_BINDER: Bytes := [114, 101, 115, 32, 98, 105, 110, 100, 101, 114]
  const FINISHED: Bytes := [102, 105, 110, 105, 115, 104, 101, 100]
  const RESUMPTION: Bytes := [114, 101, 115, 117, 109, 112, 116, 105, 111, 110]

  /** A secret, the hash to use it with, and whether it was agreed on outside of the protocol. */
  datatype Key = Key(secret: Bytes, prf: Prf, external: bool)

  /** _calc_binder, from the transcript that the handshake hash has consumed. */
  function CalcBinder(hs: Hashing, key: Key, transcript: Bytes): Bytes {
    var n := PrfLength(key.prf);
    var early := hs.hmac(key.prf, Zeros(n), key.secret);
    var binderKey := hs.expandLabel(key.prf, early, if key.external then EXT_BINDER else RES_BINDER, hs.digest(key.prf, []), n);
    var finishedKey := hs.expandLabel(key.prf, binderKey, FINISHED, [], n);
    hs.hmac(key.prf, finishedKey, hs.digest(key.prf, transcript))
  }

  datatype Ticket = Ticket(ticket: Bytes, nonce: Bytes)

  /** The hash that a configuration names, if it is one of the two supported ones. */
  datatype HashName = Named(prf: Prf) | Unsupported

  datatype PskConfig = PskConfig(identity: Bytes, secret: Bytes, hash: Option<HashName>)

  function FirstTicket(identity: Bytes, tickets: seq<Ticket>): Option<Ticket> {
    if tickets == [] then None
    else if tickets[0].ticket == identity then Some(tickets[0])
    else FirstTicket(identity, tickets[1..])
  }

  /** calc_res_binder_psk, with the hash that the length of the master secret tells. */
  function ResumptionKey(hs: Hashing, ticket: Ticket, master: Bytes): Key {
    var prf := if |master| == 32 then Sha256 else Sha384;
    Key(hs.expandLabel(prf, master, RESUMPTION, ticket.nonce, |master|), prf, false)
  }

  /** Advance the iterator over the configurations until one is for the identity; it is used up with it. */
  function NextConfig(identity: Bytes, configs: seq<PskConfig>): Result<(PskConfig, seq<PskConfig>)> {
    if configs == [] then Err(ValueError)
    else if configs[0].identity == identity then Ok((configs[0], configs[1..]))
    else NextConfig(identity, configs[1..])
  }

  function ConfigKey(config: PskConfig): Result<Key> {
    match config.hash
    case None => Ok(Key(config.secret, Sha256, true))
    case Some(Named(prf)) => Ok(Key(config.secret, prf, true))
    case Some(Unsupported) => Err(AssertionError)
  }

  /** The key for an identity: tickets come first, then the configurations that are left. */
  function ChooseKey(hs: Hashing, identity: Bytes, configs: seq<PskConfig>, tickets: seq<Ticket>, master: Bytes)
    : Result<(Key, seq<PskConfig>)>
  {
    var t := FirstTicket(identity, tickets);
    if t.Some? then Ok((ResumptionKey(hs, t.value, master), configs))
    else
      var (config, rest) :- NextConfig(identity, configs);
      var key :- ConfigKey(config);
      Ok((key, rest))
  }

  /** The loop of update_binders from position i on; binders computed before a failure stay in place. */
  function SignFrom(hs: Hashing, identities: seq<Identity>, configs: seq<PskConfig>, tickets: seq<Ticket>, master: Bytes,
                    signed: Bytes, binders: seq<Bytes>, i: nat): (Result<()>, seq<Bytes>)
    requires i <= |identities|
    decreases |identities| - i
  {
    if i == |identities| then (Ok(()), binders)
    else
      match ChooseKey(hs, identities[i].identity, configs, tickets, master)
      case Err(e) => (Err(e), binders)
      case Ok((key, rest)) =>
        if i >= |binders| then (Err(IndexError), binders)
        else
          SignFrom(hs, identities, rest, tickets, master, signed, binders[i := CalcBinder(hs, key, signed)], i + 1)
  }

  /** The keys that the loop uses from position i on. */
  function KeysFrom(hs: Hashing, identities: seq<Identity>, configs: seq<PskConfig>, tickets: seq<Ticket>, master: Bytes, i: nat)
    : (keys: seq<Key>)
    requires i <= |identities|
    ensures |keys| <= |identities| - i
    decreases |identities| - i
  {
    if i == |identities| then []
    else
      match ChooseKey(hs, identities[i].identity, configs, tickets, master)
      case Err(_) => []
      case Ok((key, rest)) => [key] + KeysFrom(hs, identities, rest, tickets, master, i + 1)
  }

  /** What update_binders is given besides the hello. */
  datatype Secrets = Secrets(configs: seq<PskConfig>, tickets: Option<seq<Ticket>>, master: Option<Bytes>)

  function TicketsOf(s: Secrets): seq<Ticket> {
    if s.tickets.Some? then s.tickets.value else []
  }

  function MasterOf(s: Secrets): Bytes {
    if s.master.Some? then s.master.value else []
  }

  /** update_binders. */
  function UpdateBinders(hs: Hashing, h: Hello, transcript: Bytes, s: Secrets): (Result<()>, Hello) {
    if h.extensions.None? then (Err(TypeError), h)
    else if h.extensions.value == [] then (Err(IndexError), h)
    else if !h.extensions.value[|h.extensions.value| - 1].Psk? then (Err(ValueError), h)
    else if TicketsOf(s) != [] && MasterOf(s) == [] then (Err(ValueError), h)
    else
      match Truncate(h)
      case Err(e) => (Err(e), h)
      case Ok(truncated) =>
        var offer := OfferOf(h);
        var (r, binders) := SignFrom(hs, offer.identities, s.configs, TicketsOf(s), MasterOf(s), transcript + truncated, offer.binders, 0);
        (r, WithBinders(h, binders))
  }

  /** verify_binder. */
  function VerifyBinder(hs: Hashing, h: Hello, transcript: Bytes, position: nat, key: Key): Result<()> {
    if h.extensions.None? then Err(TypeError)
    else if h.extensions.value == [] then Err(IndexError)
    else if !h.extensions.value[|h.extensions.value| - 1].Psk? then Err(IllegalParameter)
    else
      var truncated :- Truncate(h);
      var binders := OfferOf(h).binders;
      if position >= |binders| then Err(IndexError)
      else if CalcBinder(hs, key, transcript + truncated) != binders[position] then Err(IllegalParameter)
      else Ok(())
  }

  /** The keys that update_binders uses, one for each identity. */
  function KeysOf(hs: Hashing, h: Hello, s: Secrets): seq<Key>
    requires Offers(h)
  {
    KeysFrom(hs, OfferOf(h).identities, s.configs, TicketsOf(s), MasterOf(s), 0)
  }

  /** What the loop leaves: each position holds the binder of its key, and the others what they held. */
  lemma {:induction false} SignedBinders(hs: Hashing, identities: seq<Identity>, configs: seq<PskConfig>, tickets: seq<Ticket>,
                                         master: Bytes, signed: Bytes, binders: seq<Bytes>, i: nat)
    requires i <= |identities|
    requires SignFrom(hs, identities, configs, tickets, master, signed, binders, i).0.Ok?
    ensures var binders' := SignFrom(hs, identities, configs, tickets, master, signed, binders, i).1;
            var keys := KeysFrom(hs, identities, configs, tickets, master, i);
            && |keys| == |identities| - i && |binders'| == |binders| && (i < |identities| ==> |identities| <= |binders|)
            && (forall j :: i <= j < |identities| ==> binders'[j] == CalcBinder(hs, keys[j - i], signed))
            && (forall j :: 0 <= j < |binders| && !(i <= j < |identities|) ==> binders'[j] == binders[j])
    decreases |identities| - i
  {
    hide ChooseKey, CalcBinder;
    if i < |identities| {
      var (key, rest) := ChooseKey(hs, identities[i].identity, configs, tickets, master).value;
      SignedBinders(hs, identities, rest, tickets, master, signed, binders[i := CalcBinder(hs, key, signed)], i + 1);
    }
  }

  lemma BinderLength(hs: Hashing, key: Key, transcript: Bytes)
    requires SoundHashing(hs)
    ensures |CalcBinder(hs, key, transcript)| == PrfLength(key.prf)
  {
  }

  lemma {:induction false} SameSizes(a: seq<Bytes>, b: seq<Bytes>)
    requires |a| == |b| && forall i :: 0 <= i < |a| ==> |a[i]| == |b[i]|
    ensures BinderBytes(a) == BinderBytes(b)
  {
    if a != [] {
      SameSizes(a[1..], b[1..]);
    }
  }

  lemma {:induction false} ShortBindersWritable(binders: seq<Bytes>)
    ensures WriteItems(BINDERS, binders).Ok? <==> forall b :: b in binders ==> |b| < 256
  {
    assert Pow256(1) == 256;
    hide ToBE;
    if binders != [] {
      ShortBindersWritable(binders[1..]);
      assert binders == [binders[0]] + binders[1..];
    }
  }

  lemma {:induction false} WriteLastBack<T>(codec: ItemCodec<T>, items: seq<T>, last: T)
    requires WriteItems(codec, items).Ok? && codec.write(last).Ok?
    ensures WriteItems(codec, items + [last]).Ok?
  {
    if items == [] {
      assert ([] + [last])[1..] == [] && [] + [last] == [last];
    } else {
      WriteLastBack(codec, items[1..], last);
      assert (items + [last])[1..] == items[1..] + [last];
    }
  }

  /** Binders of the same sizes do not hinder the writing. */
  lemma StillWritable(h: Hello, binders: seq<Bytes>)
    requires Offers(h) && Write(h).Ok? && WriteItems(BINDERS, binders).Ok?
    requires BinderBytes(binders) == BinderBytes(OfferOf(h).binders)
    ensures Write(WithBinders(h, binders)).Ok?
  {
    SameBlockLength(h, binders);
    SameHead(h);
    SameHead(WithBinders(h, binders));
    hide Pow256, ToBE, WriteHead, WriteTail;
  }

  lemma SameBlockLength(h: Hello, binders: seq<Bytes>)
    requires Offers(h) && WriteTail(h).Ok? && WriteItems(BINDERS, binders).Ok?
    requires BinderBytes(binders) == BinderBytes(OfferOf(h).binders)
    ensures var w := WriteTail(WithBinders(h, binders)); w.Ok? && |w.value| == |WriteTail(h).value|
  {
    hide Pow256, ToBE, WriteItems, WriteExtension;
    var h' := WithBinders(h, binders);
    var last, last' := Psk(Some(OfferOf(h))), Psk(Some(OfferOf(h')));
    assert h.extensions.value == Others(h) + [last] && h'.extensions.value == Others(h) + [last'];
    WriteLast(EXTENSIONS, Others(h), last);
    SameExtensionLength(OfferOf(h), binders);
    WriteLastBack(EXTENSIONS, Others(h), last');
    WriteLast(EXTENSIONS, Others(h), last');
  }

  lemma SameExtensionLength(offer: Offer, binders: seq<Bytes>)
    requires WriteExtension(Psk(Some(offer))).Ok? && WriteItems(BINDERS, binders).Ok?
    requires BinderBytes(binders) == BinderBytes(offer.binders)
    ensures var w := WriteExtension(Psk(Some(offer.(binders := binders))));
            w.Ok? && |w.value| == |WriteExtension(Psk(Some(offer))).value|
  {
    hide Payload;
    OfferWritten(offer);
    OfferWritten(offer.(binders := binders));
    BinderListLength(binders);
    BinderListLength(offer.binders);
    hide Pow256, ToBE, WriteItems;
  }

  /** Every placeholder has the length of the hash that its key is used with. */
  predicate PlaceholdersFit(h: Hello, keys: seq<Key>)
    requires Offers(h)
  {
    |keys| <= |OfferOf(h).binders| && forall i :: 0 <= i < |keys| ==> |OfferOf(h).binders[i]| == PrfLength(keys[i].prf)
  }

  /** What signing leaves in place of fitting placeholders has their sizes. */
  lemma SignedSizes(hs: Hashing, identities: seq<Identity>, configs: seq<PskConfig>, tickets: seq<Ticket>, master: Bytes,
                    signed: Bytes, binders: seq<Bytes>)
    requires SoundHashing(hs) && SignFrom(hs, identities, configs, tickets, master, signed, binders, 0).0.Ok?
    requires var keys := KeysFrom(hs, identities, configs, tickets, master, 0);
             |keys| <= |binders| && forall i :: 0 <= i < |keys| ==> |binders[i]| == PrfLength(keys[i].prf)
    ensures var binders' := SignFrom(hs, identities, configs, tickets, master, signed, binders, 0).1;
            BinderBytes(binders') == BinderBytes(binders) && |binders'| == |binders|
            && forall i :: 0 <= i < |binders| ==> |binders'[i]| == |binders[i]|
  {
    SignedBinders(hs, identities, configs, tickets, master, signed, binders, 0);
    hide SoundHashing, SignFrom, KeysFrom, CalcBinder, BinderBytes;
    var keys := KeysFrom(hs, identities, configs, tickets, master, 0);
    var binders' := SignFrom(hs, identities, configs, tickets, master, signed, binders, 0).1;
    forall i | 0 <= i < |binders| ensures |binders'[i]| == |binders[i]| {
      if i < |keys| { BinderLength(hs, keys[i], signed); }
    }
    SameSizes(binders', binders);
  }

  lemma SameSizesWritable(a: seq<Bytes>, b: seq<Bytes>)
    requires WriteItems(BINDERS, a).Ok? && |a| == |b| && forall i :: 0 <= i < |a| ==> |b[i]| == |a[i]|
    ensures WriteItems(BINDERS, b).Ok?
  {
    ShortBindersWritable(a);
    ShortBindersWritable(b);
    forall x | x in b ensures |x| < 256 {
      var i :| 0 <= i < |b| && b[i] == x;
      assert a[i] in a;
    }
  }

  /** With fitting placeholders, signing leaves the truncation, and so what is signed, as it was. */
  lemma SigningKeepsTruncation(hs: Hashing, h: Hello, transcript: Bytes, s: Secrets)
    requires SoundHashing(hs) && Offers(h) && UpdateBinders(hs, h, transcript, s).0.Ok?
    requires PlaceholdersFit(h, KeysOf(hs, h, s))
    ensures var h' := UpdateBinders(hs, h, transcript, s).1;
            Offers(h') && Write(h').Ok? && Truncate(h').Ok? && Truncate(h') == Truncate(h)
  {
    hide Write, CalcBinder, KeysFrom, SignFrom, Prefix, WriteItems, BinderBytes, SoundHashing, Fits;
    var offer := OfferOf(h);
    WrittenIfTruncated(h);
    var signed := transcript + Truncate(h).value;
    var binders := SignFrom(hs, offer.identities, s.configs, TicketsOf(s), MasterOf(s), signed, offer.binders, 0).1;
    SignedSizes(hs, offer.identities, s.configs, TicketsOf(s), MasterOf(s), signed, offer.binders);
    EncodingSplits(h);
    SameSizesWritable(offer.binders, binders);
    StillWritable(h, binders);
    TruncationUnchangedIff(h, binders);
    TruncationIsPrefix(h);
  }

  lemma WrittenIfTruncated(h: Hello)
    requires Offers(h)
    ensures Truncate(h).Ok? <==> Write(h).Ok?
  {
    hide Write;
  }

  /** Sign, then verify: after update_binders every position verifies under the key that was used for it,
      tickets and external keys mixed in any order. */
  lemma SignThenVerify(hs: Hashing, h: Hello, transcript: Bytes, s: Secrets, position: nat)
    requires SoundHashing(hs) && Offers(h) && UpdateBinders(hs, h, transcript, s).0.Ok?
    requires PlaceholdersFit(h, KeysOf(hs, h, s)) && position < |OfferOf(h).identities|
    ensures position < |KeysOf(hs, h, s)|
    ensures VerifyBinder(hs, UpdateBinders(hs, h, transcript, s).1, transcript, position, KeysOf(hs, h, s)[position]) == Ok(())
  {
    hide Truncate, CalcBinder, KeysFrom, SignFrom, SoundHashing, PlaceholdersFit, Write;
    SigningKeepsTruncation(hs, h, transcript, s);
    var offer := OfferOf(h);
    var signed := transcript + Truncate(h).value;
    SignedBinders(hs, offer.identities, s.configs, TicketsOf(s), MasterOf(s), signed, offer.binders, 0);
  }

  /** Derive-Secret and HKDF-Extract of section 7.1 of RFC 8446. */
  function DeriveSecret(hs: Hashing, prf: Prf, secret: Bytes, purpose: Bytes, messages: Bytes): Bytes {
    hs.expandLabel(prf, secret, purpose, hs.digest(prf, messages), if prf.Sha256? then 32 else 48)
  }

  function Extract(hs: Hashing, prf: Prf, psk: Bytes): Bytes {
    hs.hmac(prf, Zeros(if prf.Sha256? then 32 else 48), psk)
  }

  /** The finished key that a binder is computed with (sections 4.2.11.2 and 4.4 of RFC 8446). */
  function BinderKey(hs: Hashing, key: Key): Bytes {
    var purpose := if key.external then Ascii("ext binder") else Ascii("res binder");
    hs.expandLabel(key.prf, DeriveSecret(hs, key.prf, Extract(hs, key.prf, key.secret), purpose, []), Ascii("finished"), [],
                   if key.prf.Sha256? then 32 else 48)
  }

  /** A binder is the MAC of the digest of handshake and truncation under the finished key. */
  lemma BinderIsFinished(hs: Hashing, key: Key, transcript: Bytes)
    ensures CalcBinder(hs, key, transcript) == hs.hmac(key.prf, BinderKey(hs, key), hs.digest(key.prf, transcript))
  {
    assert Ascii("ext binder") == EXT_BINDER && Ascii("res binder") == RES_BINDER && Ascii("finished") == FINISHED;
  }

  /** The MAC tells the digests of x and y apart, under every key. */
  ghost predicate Separates(hs: Hashing, prf: Prf, x: Bytes, y: Bytes) {
    forall k: Bytes :: hs.hmac(prf, k, hs.digest(prf, x)) != hs.hmac(prf, k, hs.digest(prf, y))
  }

  /** Binders bind what was signed: no key gives two hellos with different digests the same binder. */
  lemma BinderBindsTranscript(hs: Hashing, key: Key, x: Bytes, y: Bytes)
    requires Separates(hs, key.prf, x, y)
    ensures CalcBinder(hs, key, x) != CalcBinder(hs, key, y)
  {
    BinderIsFinished(hs, key, x);
    BinderIsFinished(hs, key, y);
    hide CalcBinder, BinderKey;
  }

  /** And they bind the key: another secret, or another origin of it, gives another binder, as far as the MAC and
      the expansion tell the derived keys apart. */
  lemma BinderBindsKey(hs: Hashing, key: Key, key': Key, transcript: Bytes)
    requires key.prf == key'.prf && BinderKey(hs, key) != BinderKey(hs, key')
    requires forall k: Bytes, l: Bytes :: k != l ==>
               hs.hmac(key.prf, k, hs.digest(key.prf, transcript)) != hs.hmac(key.prf, l, hs.digest(key.prf, transcript))
    ensures CalcBinder(hs, key, transcript) != CalcBinder(hs, key', transcript)
  {
    BinderIsFinished(hs, key, transcript);
    BinderIsFinished(hs, key', transcript);
    hide CalcBinder, BinderKey;
  }

  /** Binders signed for one hello fail in every other whose truncation the MAC tells apart. */
  lemma MovedBindersFail(hs: Hashing, h: Hello, g: Hello, transcript: Bytes, s: Secrets, position: nat)
    requires SoundHashing(hs) && Offers(h) && Offers(g) && UpdateBinders(hs, h, transcript, s).0.Ok?
    requires PlaceholdersFit(h, KeysOf(hs, h, s)) && position < |OfferOf(h).identities| && Truncate(g).Ok?
    requires Offers(UpdateBinders(hs, h, transcript, s).1)
    requires OfferOf(g).binders == OfferOf(UpdateBinders(hs, h, transcript, s).1).binders
    requires position < |KeysOf(hs, h, s)| && Truncate(h).Ok?
    requires Separates(hs, KeysOf(hs, h, s)[position].prf, transcript + Truncate(h).value, transcript + Truncate(g).value)
    ensures VerifyBinder(hs, g, transcript, position, KeysOf(hs, h, s)[position]) == Err(IllegalParameter)
  {
    hide Truncate, CalcBinder, KeysFrom, SignFrom, SoundHashing, PlaceholdersFit, Write, Separates;
    var offer := OfferOf(h);
    var signed := transcript + Truncate(h).value;
    SignedBinders(hs, offer.identities, s.configs, TicketsOf(s), MasterOf(s), signed, offer.binders, 0);
    BinderBindsTranscript(hs, KeysOf(hs, h, s)[position], signed, transcript + Truncate(g).value);
  }

  /** The key of a ticket (section 4.6.1 of RFC 8446): expanded from the resumption master secret, whose length
      tells the hash. */
  lemma TicketKey(hs: Hashing, ticket: Ticket, master: Bytes)
    requires |master| == 32 || |master| == 48
    ensures var key := ResumptionKey(hs, ticket, master);
            && !key.external && (key.prf == Sha256 <==> |master| == 32)
            && key.secret == hs.expandLabel(key.prf, master, Ascii("resumption"), ticket.nonce, |master|)
  {
    assert Ascii("resumption") == RESUMPTION;
  }

  /** The key of a configuration is external, for SHA-256 unless the configuration names another hash. */
  lemma ConfiguredKey(config: PskConfig)
    ensures ConfigKey(config).Ok? <==> config.hash != Some(Unsupported)
    ensures ConfigKey(config).Ok? ==>
              var key := ConfigKey(config).value;
              key.external && key.secret == config.secret && Some(Named(key.prf)) == (if config.hash.None? then Some(Named(Sha256)) else config.hash)
  {
  }

  /** At each position, one binder at most is accepted under a key: the binder is no part of what it signs, and
      one of another length would not verify. */
  lemma AcceptedBinderIsUnique(hs: Hashing, h: Hello, transcript: Bytes, position: nat, key: Key, x: Bytes, y: Bytes)
    requires SoundHashing(hs) && Offers(h) && position < |OfferOf(h).binders|
    requires VerifyBinder(hs, WithBinders(h, OfferOf(h).binders[position := x]), transcript, position, key).Ok?
    requires VerifyBinder(hs, WithBinders(h, OfferOf(h).binders[position := y]), transcript, position, key).Ok?
    ensures x == y && |x| == PrfLength(key.prf)
  {
    hide Truncate, CalcBinder, SoundHashing, Write;
    var bs := OfferOf(h).binders;
    var hx, hy := WithBinders(h, bs[position := x]), WithBinders(h, bs[position := y]);
    WrittenIfTruncated(hx);
    WrittenIfTruncated(hy);
    BinderLength(hs, key, transcript + Truncate(hx).value);
    BinderLength(hs, key, transcript + Truncate(hy).value);
    SameSizes(bs[position := x], bs[position := y]);
    assert hy == WithBinders(hx, bs[position := y]);
    TruncationUnchangedIff(hx, bs[position := y]);
  }

  /** Where a key comes from: the first ticket of that name, or else some configuration for the identity. */
  predicate Belongs(hs: Hashing, key: Key, identity: Bytes, configs: seq<PskConfig>, tickets: seq<Ticket>, master: Bytes) {
    var t := FirstTicket(identity, tickets);
    if t.Some? then key == ResumptionKey(hs, t.value, master)
    else exists i :: 0 <= i < |configs| && configs[i].identity == identity && ConfigKey(configs[i]) == Ok(key)
  }

  lemma {:induction false} NextConfigFound(identity: Bytes, configs: seq<PskConfig>) returns (i: nat)
    requires NextConfig(identity, configs).Ok?
    ensures i < |configs| && configs[i] == NextConfig(identity, configs).value.0 && configs[i].identity == identity
    ensures NextConfig(identity, configs).value.1 == configs[i + 1..]
  {
    if configs[0].identity == identity {
      i := 0;
    } else {
      var j := NextConfigFound(identity, configs[1..]);
      i := j + 1;
      assert configs[1..][j + 1..] == configs[i + 1..];
    }
  }

  lemma BelongsToMore(hs: Hashing, key: Key, identity: Bytes, all: seq<PskConfig>, n: nat, tickets: seq<Ticket>, master: Bytes)
    requires n <= |all| && Belongs(hs, key, identity, all[n..], tickets, master)
    ensures Belongs(hs, key, identity, all, tickets, master)
  {
    hide ResumptionKey, ConfigKey;
    if FirstTicket(identity, tickets).None? {
      var i :| 0 <= i < |all[n..]| && all[n..][i].identity == identity && ConfigKey(all[n..][i]) == Ok(key);
      assert all[i + n] == all[n..][i];
    }
  }

  /** Each key that is used belongs to the identity at its position. */
  lemma {:induction false} KeysBelong(hs: Hashing, identities: seq<Identity>, configs: seq<PskConfig>, tickets: seq<Ticket>,
                                      master: Bytes, i: nat, j: nat)
    requires i <= j < |identities| && j - i < |KeysFrom(hs, identities, configs, tickets, master, i)|
    ensures Belongs(hs, KeysFrom(hs, identities, configs, tickets, master, i)[j - i], identities[j].identity, configs, tickets, master)
    decreases |identities| - i
  {
    hide ResumptionKey, ConfigKey, Belongs;
    var identity := identities[i].identity;
    var (key, rest) := ChooseKey(hs, identity, configs, tickets, master).value;
    var used := ConfigsUsed(hs, identity, configs, tickets, master);
    if j > i {
      KeysBelong(hs, identities, rest, tickets, master, i + 1, j);
      BelongsToMore(hs, KeysFrom(hs, identities, configs, tickets, master, i)[j - i], identities[j].identity, configs, used, tickets, master);
    }
  }

  lemma ConfigsUsed(hs: Hashing, identity: Bytes, configs: seq<PskConfig>, tickets: seq<Ticket>, master: Bytes) returns (n: nat)
    requires ChooseKey(hs, identity, configs, tickets, master).Ok?
    ensures var (key, rest) := ChooseKey(hs, identity, configs, tickets, master).value;
            n <= |configs| && rest == configs[n..] && Belongs(hs, key, identity, configs, tickets, master)
  {
    hide ResumptionKey, ConfigKey;
    if FirstTicket(identity, tickets).Some? {
      n := 0;
    } else {
      var i := NextConfigFound(identity, configs);
      n := i + 1;
    }
  }
}
