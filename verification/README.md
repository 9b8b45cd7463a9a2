# A verified model of tlslite-ng and its designated-verifier proofs

This project models, in Dafny, the parts of tlslite-ng (a TLS stack in Python) that carry its invariants, and the
non-interactive designated-verifier proof that was added to it. It proves properties over all inputs and all runs.

* **Record channel** (`RecordProtection`, `RecordReception`, `RecordRoundTrip`, `RecordSoundness`, `NonceUniqueness`, `KeySchedule`,
  `RecordDelivery`, `WireImages`,
  `Reading`, `Sending`, `Channel`, `Convergence`, `SendingLimits`, `EarlyData`, `KeyChain`): protection of records in every construction from
  SSL 3.0 to TLS 1.3, early data, fragmentation, KeyUpdate, and two endpoints over two queues of records. `RecordLayer`
  and `TlsConnection` hold the same code as classes whose methods are proved against these functions.
* **Messages in pieces** (`Defragmenter`, `MessageSocket`): demultiplexing and coalescing.
* **Key derivation and exchange** (`Prf`, `KeyBlock`, `KeyExchange`): the PRF loops, slicing of the key block, SRP,
  finite-field Diffie-Hellman.
* **DVNIZK** (`Modular`, `PrimeField`, `Dvnizk`, `CoordinateMap`): prover, verifier, simulator, wire format, and the map
  from Montgomery to Edwards coordinates.
* **ClientHello** (`Codec`, `Extensions`, `ClientHello`, `PskBinders`, `ClientHelloObject`): nested length-prefixed
  structures and PSK binders.
* **Session cache** (`SessionCache`) and **asynchronous state machine** (`AsyncStateMachine`).

Code that works step by step is modelled as classes and loops, each proved equal to a function on values; the
properties are lemmas about those functions. Exceptions are values of `Result`. Randomness, clocks and what the network
holds are parameters.

## Assumptions

The primitives are functions of which only this is assumed: opening inverts sealing, decrypting inverts encrypting,
lengths are as declared, and a cipher keeps its block size. `Primitives.TransparentIsCorrect` shows that the assumptions
can be met. Of the curve it is assumed that its points form an abelian group with a subgroup of prime order generated by
the base point; `IntegersModulo.ResiduesAreLawful` gives an instance. The point library rejects zero scalars and results
that vanish, which the model raises as errors. Primality is always a hypothesis.

## Where code and expectation differ

* A change_cipher_spec record restarts the count of skipped early data, although `max_early_data` is documented as a
  limit on the total: `EarlyDataLimits.SixteenBytesPass` is a failing input, `EarlyDataLimits.TotalLimitedIff` the exact
  condition.
* After the handshake the library leaves compatibility mode, so a change_cipher_spec record is then fatal; exactly when
  it is tolerated is `Reading.CcsToleratedIff`.
* Storing a session under an identifier that is still in the circular list makes a later purge raise, with the
  dictionary already changed (`SessionCaches.StoringTwiceFails`, `SessionCaches.RunSafeIffFresh`).
* The verifier of DVNIZK proofs raises on honestly made proofs in which a scalar vanishes (`Dvnizk.Completeness`,
  `IntegersModulo.HonestProofRaises`).
* The top bit of an X25519 key takes part in the coordinate map, unlike in section 5 of RFC 7748
  (`CoordinateMap.KeysCollideIffCongruent`, `CoordinateMap.TopBitMatters`).
* Diffie-Hellman over a composite modulus, which the constructor admits, can give a key to one side only
  (`FiniteFieldDh.OutcomesAgreeIff`, `FiniteFieldDh.CompositeOutcomesDiffer`).
* `write` and `parse` of extensions are said to be exact reverses of each other. They are not for some unset values, nor
  for an SRP extension with bytes behind the user name (`Extensions.ExtensionRoundTrip`, `Extensions.ExtensionOnly`,
  `Extensions.TrailingBytesGetLost`).
* The PRF of SSL 3.0 silently returns zeros beyond 416 bytes (`PrfLoops.OldStreamFilledIff`).

## Model

| member | source | states |
|---|---|---|
| `Channel.ChannelIsFaithful` | tlslite/tlsrecordlayer.py:1494-1539 | From the end of a handshake, over every sequence of sending, partial delivery, reading, crossing KeyUpdates, new record sizes and paddings, and inserted change_cipher_spec records: what either side has heard is a prefix of what the other has sent, byte for byte for application data |
| `Channel.RunKeepsInvariant` | tlslite/recordlayer.py:1351-1375 | In every reachable state, in each direction, reading all that is under way would take the reader exactly to the secret, key, nonce and sequence number of the writer, and yield just what was sent and not yet heard |
| `Channel.ActKeeps` | tlslite/tlsrecordlayer.py:371-410 | Every single move keeps that invariant; insertions and new settings never fail, and a reading fails only when the answer to a requested KeyUpdate cannot be sent |
| `Channel.SendKeeps` | tlslite/tlsrecordlayer.py:964-996 | Sending any message extends the records under way by records from which the reader, having read the rest, hears exactly the pieces of that message |
| `Channel.HearKeeps` | tlslite/tlsrecordlayer.py:1061-1319 | Reading any part of what has arrived never stops with an error and keeps the direction in step |
| `Channel.InsertKeeps` | tlslite/recordlayer.py:920-924 | In compatibility mode a change_cipher_spec in the clear, put anywhere among the records, even inside a cut message, changes nothing of what is read |
| `Channel.ConfigureKeeps` | tlslite/tlsrecordlayer.py:234-243 | Record size and padding may be set anew between any two messages, within the limits of the peer: what is under way is read all the same, and the reader still ends in the state of the writer |
| `Channel.StartSatisfiesInvariant` | tlslite/recordlayer.py:1268-1323 | States derived on both sides from the same two traffic secrets start in step, whichever side is the client |
| `Channel.InvMeansFaithful` | tlslite/tlsrecordlayer.py:1322-1375 | Sent is heard plus pending, in both directions; heard application data is a prefix of the bytes written |
| `Reading.CcsToleratedIff` | tlslite/tlsrecordlayer.py:1078-1091 | Between messages a change_cipher_spec record is passed over exactly if compatibility mode is on and it holds the one byte 1; otherwise it ends the connection |
| `Reading.CcsFetched` | tlslite/tlsrecordlayer.py:1344-1364 | A change_cipher_spec record keeps the early data flag, but restarts the count of skipped bytes; EarlyDataLimits says what follows |
| `Reading.ReadAppend` | tlslite/tlsrecordlayer.py:1322-1375 | Reading may pause between any two records: the whole gives the events of the first part, then those of the second from the state reached |
| `Reading.NextAppend` | tlslite/tlsrecordlayer.py:1326-1375 | The same for the loop that fetches one message |
| `Reading.GetAppend` | tlslite/tlsrecordlayer.py:1071-1206 | The same for the loop that passes over ignorable messages |
| `Reading.ReceiveAppend` | tlslite/recordlayer.py:886-983 | The same for the loop that receives one record, skipped early data included |
| `Reading.ReceiveKeeps` | tlslite/recordlayer.py:898-967 | Receiving changes of a reading state nothing but the sequence number, and never sets the early data flag |
| `Delivery.EventDelivered` | tlslite/tlsrecordlayer.py:985-996 | Whatever the record size and padding within the limits of the peer, a message sent from a state is heard by an idle reader in that state, who ends in the state of the writer, after the key change if it was a KeyUpdate |
| `Delivery.DataDelivered` | tlslite/tlsrecordlayer.py:985-996 | Application data is heard as its nonempty pieces, in order |
| `Delivery.HandshakeFetched` | tlslite/tlsrecordlayer.py:1326-1375 | However a handshake message was cut, it is fetched whole with its last piece and the buffers are empty again |
| `Delivery.PieceReceived` | tlslite/recordlayer.py:886-983 | A record is opened in the state that sealed it, passes the length limits, and yields the type and content it was made from |
| `Delivery.ExpectedBytes` | tlslite/tlsrecordlayer.py:985-996 | Cutting does not show in the bytes of application data |
| `Sending.PiecesCut` | tlslite/tlsrecordlayer.py:972-996 | For every version, cipher mode and record size, the pieces of a message joined are the message, none is too long, and none is empty but that of an empty message |
| `Sending.FragmentsFull` | tlslite/tlsrecordlayer.py:985-996 | All fragments but the last are full |
| `Sending.FirstByteAloneIff` | tlslite/tlsrecordlayer.py:972-984 | The first byte goes in a record of its own exactly for application data under a block cipher up to TLS 1.0 |
| `Sending.PaddingKeepsLimit` | tlslite/recordlayer.py:608-617 | A padding callback that keeps to the room it is shown never makes the inner plaintext exceed the limit for sending |
| `SendingLimits.EventSentIff` | tlslite/recordlayer.py:251-256 | Whatever the padding callback, a message is sent exactly if every piece of it gets a padding that is not negative, a record whose length fits the length field, and a sequence number below 2^64 |
| `SendingLimits.ReadFailsIff` | tlslite/tlsrecordlayer.py:1500-1511 | In a reachable state, a turn of reading fails exactly if it hears a requested KeyUpdate whose answer cannot be sent in that sense |
| `SendingLimits.PlainSendableIff` | tlslite/recordlayer.py:251-256 | Without a padding callback only sequence numbers run out |
| `Convergence.Converges` | tlslite/tlsrecordlayer.py:1494-1539 | From every reachable state, reading in turns all that has arrived comes to rest within the work left, with nothing pending and the same secrets on both sides, unless an answer cannot be sent, which is excluded if both ends pad nothing and have a sequence number for each byte of a KeyUpdate |
| `Convergence.RequestIsAnswered` | tlslite/tlsrecordlayer.py:1494-1539 | A KeyUpdate requested while all is at rest is heard once and answered once, and then all is at rest again with equal secrets |
| `Convergence.UpdateRunExists` | tlslite/tlsrecordlayer.py:1517-1539 | The hypotheses of the theorems about two endpoints are met by fresh endpoints with default settings and a run with one request and its answer |
| `Convergence.RepliesTerminate` | tlslite/tlsrecordlayer.py:1494-1539 | In every run of readings, in any order and of any part of what has arrived, the events heard on both sides are paid for one by one out of a finite measure: 2 for a requested KeyUpdate under way and 1 for anything else |
| `Convergence.RepliesAnswerRequests` | tlslite/tlsrecordlayer.py:1500-1511 | In such a run each side sends exactly one update_not_requested for every update_requested it hears, and nothing else |
| `Convergence.PendingIsHeard` | tlslite/tlsrecordlayer.py:371-410 | As long as anything is pending, reading all that has arrived hears the first pending event |
| `Convergence.SecretsAgree` | tlslite/recordlayer.py:1351-1375 | Once no KeyUpdate is pending, both sessions hold the same client secret and the same server secret |
| `Convergence.StatesAgree` | tlslite/recordlayer.py:1325-1349 | Once nothing is under way, each side reads in the very state in which the other writes |
| `KeyChains.RunOnChain` | tlslite/recordlayer.py:1325-1375 | In every reachable state, in each direction, the secret of the writer is as many steps of HKDF-Expand-Label with "traffic upd" away from the handshake as KeyUpdates were sent, that of the reader as many as were heard, and each state has the "key" and "iv" expansions of its secret |
| `KeyChains.StartOnChain` | tlslite/recordlayer.py:1268-1323 | The handshake leaves both ends at the start of these chains |
| `KeyChains.SentAlongChain` | tlslite/recordlayer.py:1325-1349 | A KeyUpdate takes the writer one step on, to sequence number 0; other messages take one sequence number for each piece and leave key and initialisation vector |
| `KeyChains.RunAlongChain` | tlslite/recordlayer.py:1364-1375 | After any run of messages under changing settings the writer is as many steps on as KeyUpdates were sent |
| `KeyChains.HeardAlongChain` | tlslite/recordlayer.py:1351-1362 | A reader goes one step on with each KeyUpdate it hears, and with nothing else |
| `KeyChains.RecordsSealedAtMarks` | tlslite/recordlayer.py:522-565 | Every record of such a run is sealed under the key of its step and the nonce that its sequence number, counted from the last KeyUpdate, gives with the initialisation vector of that step |
| `KeyChains.KeyAndNonceNeverRepeat` | tlslite/recordlayer.py:1325-1349 | Over such a run, KeyUpdates included, no key is used with the same nonce twice, if the keys along the chain differ |
| `TlsConnections.TlsConnection.SendMsg` | tlslite/tlsrecordlayer.py:964-996 | The cutting loop, with the first byte of application data ahead in CBC mode up to TLS 1.0, puts on the network exactly the records of the specified pieces |
| `TlsConnections.TlsConnection.GetNextRecord` | tlslite/tlsrecordlayer.py:1322-1375 | The loop over records and buffers returns the next message of the specification and leaves its reading state |
| `TlsConnections.TlsConnection.GetMsg` | tlslite/tlsrecordlayer.py:1061-1206 | The loop of _getMsg accepts, passes over or refuses as specified |
| `TlsConnections.TlsConnection.SendKeyUpdateRequest` | tlslite/tlsrecordlayer.py:1517-1539 | The KeyUpdate goes out under the old key, then the writing secret and state move on; the reading half is untouched |
| `TlsConnections.TlsConnection.HandleKeyUpdateRequest` | tlslite/tlsrecordlayer.py:1494-1515 | The reading secret and state move on, and only a request is answered |
| `TlsConnections.TlsConnection.ReadTurn` | tlslite/tlsrecordlayer.py:371-410 | One turn of the reading loop changes buffers, tickets, states and queues as specified |
| `TlsConnections.TurnIsMove` | tlslite/tlsrecordlayer.py:371-410 | That turn is the reading move of the two-endpoint system, so that the theorems about the system hold of the object |
| `TlsConnections.TlsConnection.Write` | tlslite/tlsrecordlayer.py:454-479 | Writing puts the records of the data on the network and advances the writing state only |
| `RecordRoundTrip.ProtectionRoundTrip` | tlslite/recordlayer.py:592-983 | For every construction (AEAD with implicit and explicit nonce, encrypt-then-MAC, MAC-then-encrypt with block, stream and null ciphers, TLS 1.3 with any zero padding), whatever sendRecord makes from a state, recvRecord takes apart from an equal state to the same data and the same next state |
| `RecordRoundTrip.SealOpens` | tlslite/recordlayer.py:536-565 | What is sealed opens, with both sequence numbers advanced alike |
| `RecordRoundTrip.EncryptThenMacInverts` | tlslite/recordlayer.py:500-520 | Encrypt-then-MAC, with and without the IV block, is undone by checking the MAC, decrypting and unpadding |
| `RecordRoundTrip.BlockMacThenEncryptInverts` | tlslite/recordlayer.py:680-719 | CBC MAC-then-encrypt is undone by decryption and the combined check of padding and MAC (section 6.2.3.2 of RFC 5246) |
| `RecordRoundTrip.StreamInverts` | tlslite/recordlayer.py:643-677 | Stream and null ciphers with MAC are undone |
| `RecordRoundTrip.DePadInverts` | tlslite/recordlayer.py:863-884 | Removing TLS 1.3 padding finds content and type again for every amount of padding, even if the content ends in zeros |
| `RecordDelivery.RecordDelivered` | tlslite/recordlayer.py:886-983 | Before TLS 1.3, for every construction: a record is received as the very type and content that were sent, leaving the reader in the state of the writer, exactly if content and payload are within the limits; else it overflows |
| `RecordDelivery.DerivedRecordDelivered` | tlslite/recordlayer.py:1189-1266 | So it is under states derived from one key block, for every kind of cipher, in both directions |
| `RecordDelivery.FirstAlertHeard` | tlslite/recordlayer.py:917-935 | A TLS 1.3 reader takes a short alert in the clear before the first protected record |
| `NonceUniqueness.NoncesNeverRepeat` | tlslite/recordlayer.py:522-565 | Over any run of sendRecord calls from a write state no two records are sealed under the same nonce, for the xor and for the concatenation form |
| `NonceUniqueness.NonceInjective` | tlslite/recordlayer.py:522-533 | Equal nonces come from equal sequence numbers |
| `NonceUniqueness.SendSealsUnderNonce` | tlslite/recordlayer.py:536-565 | Every record sent under an AEAD cipher is the seal of its data under the nonce of its sequence number |
| `WireImages.NonceImage` | tlslite/recordlayer.py:522-533 | The nonce is the sequence number xored into the fixed part for TLS 1.3 and ChaCha20, and put behind it otherwise |
| `WireImages.AuthDataImage` | tlslite/recordlayer.py:536-551 | The additional data, byte for byte: sequence number, type, version and length, or in TLS 1.3 the record header |
| `WireImages.ExplicitNonceSent` | tlslite/recordlayer.py:553-565 | AES before TLS 1.3 sends the sequence number in front of the sealed data, and nothing else does |
| `WireImages.MacInputImage` | tlslite/recordlayer.py:463-474 | What a MAC is computed over, byte for byte; SSL 3.0 leaves out the version |
| `WireImages.PaddingImage` | tlslite/recordlayer.py:453-462 | The fewest bytes that fill blocks, each naming the length of the padding |
| `WireImages.BlockImage` | tlslite/recordlayer.py:476-498 | MAC-then-encrypt: content, MAC and padding encrypted behind the initialisation vector from TLS 1.1 on |
| `WireImages.EncryptThenMacImage` | tlslite/recordlayer.py:500-520 | Encrypt-then-MAC: the MAC of the encrypted bytes, initialisation vector included, follows them |
| `ByteStrings.XorByteBits` | tlslite/recordlayer.py:529-530 | Exclusive or, bit by bit |
| `RecordReception.SkipsJunk` | tlslite/recordlayer.py:955-964 | A run of undecryptable records within the allowance changes nothing but the count of their bytes |
| `RecordReception.EarlyDataSkipped` | tlslite/recordlayer.py:898-967 | After such a run the first genuine record is opened in the state from before it, and flag and count are cleared |
| `RecordReception.EarlyDataExhausted` | tlslite/recordlayer.py:955-964 | For an uninterrupted run the allowance is exact: one more undecryptable record is skipped if the total stays below the limit, and ends the connection otherwise |
| `EarlyDataLimits.BlockForgotten` | tlslite/tlsrecordlayer.py:1343-1364 | Undecryptable records below the limit with a tolerated change_cipher_spec record behind them leave no trace: the rest is read as if they had not come |
| `EarlyDataLimits.BlocksPassed` | tlslite/recordlayer.py:955-964 | Any number of blocks of undecryptable records with change_cipher_spec records in between: they are passed over exactly if each block by itself is below the limit and the records in between are tolerated, and the connection ends otherwise |
| `EarlyDataLimits.TotalLimitedIff` | tlslite/recordlayer.py:280-284 | With tags of two bytes or more, the documented limit on the sum of payloads holds for every input exactly if change_cipher_spec records are not put up with, or the limit is at most one byte, or the sequence numbers are used up |
| `EarlyDataLimits.OneBlockLimited` | tlslite/recordlayer.py:335-340 | For one input it holds if a single block has any bytes |
| `EarlyDataLimits.HeardAfterBlocks` | tlslite/recordlayer.py:898-967 | However many blocks came before, the first message of a writer in the awaited state is heard whole, and the reader ends in the state of the writer |
| `EarlyDataLimits.SixteenBytesPass` | tlslite/tlsrecordlayer.py:1343-1364 | With a limit of ten bytes, eight and eight around one change_cipher_spec record are skipped and the genuine message after them is heard; without that record the same sixteen bytes end the connection |
| `Primitives.TransparentIsCorrect` | tlslite/recordlayer.py:536-565 | The assumptions made of the primitives can all be met together |
| `RecordLayers.ConnectionState.GetSeqNumBytes` | tlslite/recordlayer.py:251-256 | Eight bytes of the sequence number, which is then used up; at 2^64 an error that changes nothing |
| `RecordLayers.ConnectionState.Copy` | tlslite/recordlayer.py:258-266 | A new object with the same contents |
| `RecordLayers.RecordLayer.SetEarlyDataOk` | tlslite/recordlayer.py:343-345 | Setting the flag restarts the count |
| `RecordLayers.RecordLayer.SendRecord` | tlslite/recordlayer.py:592-641 | Disguise, padding, dispatch over the constructions and framing, with the write state that is left, errors included |
| `RecordLayers.RecordLayer.EncryptThenSeal` | tlslite/recordlayer.py:536-565 | Refines the sealing that SealOpens inverts; the sequence number is used up even when a later step fails |
| `RecordLayers.RecordLayer.MacThenEncrypt` | tlslite/recordlayer.py:476-498 | Refines the protection that StreamInverts and BlockMacThenEncryptInverts undo, cipher state and sequence number included |
| `RecordLayers.RecordLayer.EncryptThenMac` | tlslite/recordlayer.py:500-520 | Refines the protection that EncryptThenMacInverts undoes; a stream cipher is an error |
| `RecordLayers.RecordLayer.DecryptAndUnseal` | tlslite/recordlayer.py:780-824 | Refines the unsealing that SealOpens uses, with the sequence number used up and each error told apart |
| `RecordLayers.RecordLayer.MacThenDecrypt` | tlslite/recordlayer.py:721-778 | Refines the receiving side of encrypt-then-MAC: nothing is decrypted before the MAC is right |
| `RecordLayers.RecordLayer.StripPadding` | tlslite/recordlayer.py:757-776 | The loop over padding bytes accepts exactly well-formed padding |
| `RecordLayers.RecordLayer.DecryptThenMac` | tlslite/recordlayer.py:680-719 | Refines the receiving side that OnlyMacedBlocksPass is about |
| `RecordLayers.RecordLayer.DecryptStreamThenMac` | tlslite/recordlayer.py:643-677 | Refines the receiving side of stream and null ciphers |
| `RecordLayers.RecordLayer.Tls13DePad` | tlslite/recordlayer.py:863-884 | The backward loop finds the last nonzero byte, or reports that there is none |
| `RecordLayers.RecordLayer.RecvRecord` | tlslite/recordlayer.py:886-987 | The loop with its copy of the state skips, raises or returns as specified, and leaves the specified state |
| `RecordLayers.RecordLayer.ChangeWriteState` | tlslite/recordlayer.py:989-1003 | The pending state takes effect, and a fresh one is pending |
| `RecordLayers.RecordLayer.ChangeReadState` | tlslite/recordlayer.py:1005-1019 | The same for reading |
| `RecordLayers.RecordLayer.CalcPendingStates` | tlslite/recordlayer.py:1189-1266 | Both pending states come from the pieces of one key block, mirrored for client and server, keeping the encrypt-then-MAC flags |
| `RecordLayers.RecordLayer.CalcTls13PendingState` | tlslite/recordlayer.py:1268-1323 | Each side is to write under its own traffic secret and to read under the other |
| `RecordLayers.RecordLayer.CalcKeyUpdateSender` | tlslite/recordlayer.py:1351-1362 | The reading state and the secret of the peer move on, the own secret does not |
| `RecordLayers.RecordLayer.CalcKeyUpdateReceiver` | tlslite/recordlayer.py:1364-1375 | The writing state and the own secret move on, that of the peer does not |
| `KeyBlocks.CutConsumesBlock` | tlslite/recordlayer.py:1213-1221 | The six pieces joined are the key block, to the last byte, and equally long for both sides |
| `WireImages.KeysFromBlock` | tlslite/recordlayer.py:1213-1266 | MAC key, cipher key and initialisation vector of each side lie where section 6.3 of RFC 5246 puts them |
| `KeyBlocks.PendingStatesInteroperate` | tlslite/recordlayer.py:1223-1266 | What either side protects under its derived state, with an initialisation vector of its own, the other side recovers, under every kind of cipher |
| `RecordSoundness.OnlyOpenedIsReceived` | tlslite/recordlayer.py:886-987 | For any records whatsoever: a TLS 1.3 reader receives only a change_cipher_spec or a first short alert in the clear, or the content of a record that opened under the key and sequence number held before any skipping, within all three length limits |
| `RecordSoundness.OnlyProperMessages` | tlslite/tlsrecordlayer.py:1061-1258 | For any records whatsoever: a message handed on between handshakes is nonempty application data while no handshake message is half received, a ticket, or a KeyUpdate at a record boundary |
| `Reading.UpdateImage` | tlslite/messages.py:2447-2457 | A KeyUpdate that is heard has exactly the five bytes of section 4.6.3 of RFC 8446 |
| `Reading.OthersImage` | tlslite/tlsrecordlayer.py:1299-1305 | Tickets and application data are heard as the bytes they came in |
| `RecordSoundness.OnlyMacedPasses` | tlslite/recordlayer.py:721-742 | Whatever passes the check is followed by the MAC of just that content, under the current sequence number and type |
| `RecordSoundness.OnlyMacedBlocksPass` | tlslite/recordlayer.py:680-719 | What CBC MAC-then-encrypt accepts is followed by its MAC and then by padding bytes that all name the length |
| `RecordSoundness.PaddingAcceptedIff` | tlslite/recordlayer.py:757-776 | Padding is accepted, and removed, exactly if it is n + 1 bytes of value n |
| `RecordSoundness.MacInputInjective` | tlslite/recordlayer.py:463-474 | Sequence number, type and content can be told from what is put under the MAC |
| `RecordSoundness.SealedWithOwnHeader` | tlslite/recordlayer.py:545-551 | The additional data of a TLS 1.3 record is its own header (section 5.2 of RFC 8446) |
| `RecordSoundness.DePadType` | tlslite/recordlayer.py:863-884 | Content and type are split at the last nonzero byte, and only zeros follow |
| `Defragmentation.RunDeliversStream` | tlslite/defragmenter.py:103-123 | For every type and every interleaving of additions and extractions, the messages extracted are those of the stream of added bytes |
| `Defragmentation.RunConservesBytes` | tlslite/defragmenter.py:103-123 | Per type, bytes extracted and bytes buffered are the bytes added |
| `Defragmentation.SplitAppend` | tlslite/defragmenter.py:110-123 | Extraction may stop anywhere in a stream and go on later |
| `Defragmentation.SplitMessages` | tlslite/defragmenter.py:68-100 | A stream of whole messages splits into exactly these |
| `Defragmentation.FirstReadyIsUrgent` | tlslite/defragmenter.py:110-123 | What is extracted is of the first type, in the order of registration, that has a complete message |
| `Defragmentation.WholeMessageIff` | tlslite/defragmenter.py:42-100 | A message is whole exactly if it has the static size, or as many bytes behind its length field as that says |
| `Defragmentation.Defragmenter.AddStaticSize` | tlslite/defragmenter.py:42-63 | A type is registered exactly if it is new and the size is positive; otherwise nothing changes |
| `Defragmentation.Defragmenter.AddDynamicSize` | tlslite/defragmenter.py:68-100 | A type is registered exactly if it is new, the length field nonempty and the offset not negative |
| `Defragmentation.Defragmenter.AddData` | tlslite/defragmenter.py:103-108 | Data is appended to the buffer of a known type |
| `Defragmentation.Defragmenter.GetMessage` | tlslite/defragmenter.py:110-123 | The first complete message in order of priority is cut from its buffer |
| `Defragmentation.Defragmenter.ClearBuffers` | tlslite/defragmenter.py:125-128 | All buffers are emptied and the registrations kept |
| `Defragmentation.Defragmenter.IsEmpty` | tlslite/defragmenter.py:130-132 | True exactly if no buffer holds anything |
| `Messaging.EndToEnd` | tlslite/messagesocket.py:64-182 | Whatever is queued, flushed and sent in whatever order and record size, the peer receives what was handed over, in order: the very handshake, alert and change_cipher_spec messages, and between them the very bytes of application data and heartbeat |
| `Messaging.MessagesArriveWhole` | tlslite/messagesocket.py:64-182 | Without application data and heartbeat it is exactly the list of messages handed over |
| `Messaging.AtomsOfMessages` | tlslite/messagesocket.py:64-98 | Comparing types, messages and bytes in this way loses nothing of the messages |
| `Messaging.CutsDoNotMatter` | tlslite/messagesocket.py:64-98 | Messages of mixed types, cut anywhere within each stretch of one type, are received as the same list, and nothing stays behind |
| `Messaging.StepDelivers` | tlslite/messagesocket.py:108-182 | After each operation of the sender, what was received and what is still queued make up what was handed over, bytes of unfragmented types included |
| `Messaging.ChunksCut` | tlslite/messagesocket.py:108-125 | Flushing cuts the buffer into nonempty records no longer than the record size, and loses nothing |
| `Messaging.ChunksFull` | tlslite/messagesocket.py:108-125 | All records of a flush but the last are full |
| `Messaging.MessageSocket.Flush` | tlslite/messagesocket.py:108-125 | The loop sends the specified records and empties the queue |
| `Messaging.MessageSocket.QueueMessage` | tlslite/messagesocket.py:132-156 | Messages of one type are coalesced, another type flushes first |
| `Messaging.MessageSocket.SendMessage` | tlslite/messagesocket.py:163-182 | Queue and flush |
| `Messaging.MessageSocket.RecvMessageBlocking` | tlslite/messagesocket.py:100-106 | The next message, from the buffers or from further records |
| `Dvnizk.Completeness` | tlslite/dvnizk.py:101-198 | Generation succeeds exactly for nonzero coins, and its proof is accepted unless a scalar of the server branch vanishes, in which case the point library raises |
| `Dvnizk.ChallengeHashesAll` | tlslite/dvnizk.py:85-98 | The challenge is the hash of tag, both commitments, both keys and the handshake hash, in this order, read from its least significant byte and reduced modulo n |
| `Dvnizk.ChallengeBindsAll` | tlslite/dvnizk.py:85-98 | It binds each of them: whichever differs, some hash gives another challenge |
| `Dvnizk.AcceptedIffChallengeMet` | tlslite/dvnizk.py:156-198 | Commitments made without any key, backwards from responses and shares, are accepted exactly if the challenge hashed from them is the sum of the shares |
| `IntegersModulo.HonestProofRaises` | tlslite/dvnizk.py:174-198 | Such proofs exist: modulo every prime, for every nonce, an honest prover makes a proof that the verifier raises on |
| `Dvnizk.SimulationAccepted` | tlslite/dvnizk.py:205-248 | The same for the simulator and its branch |
| `Dvnizk.SimulatorReproducesProver` | tlslite/dvnizk.py:222-247 | On the mapped coins the simulator makes the transcript of the prover, and the map is undone by its inverse |
| `Dvnizk.ProverReproducesSimulator` | tlslite/dvnizk.py:119-146 | The other half of the bijection of coins |
| `Dvnizk.SimulatableIffAccepted` | tlslite/dvnizk.py:156-248 | With the rejection of zero scalars, the simulator yields a generated proof exactly if the verifier accepts it and its second commitment is not the neutral element |
| `Dvnizk.SpecialSoundness` | tlslite/dvnizk.py:174-198 | Two accepting proofs on the same commitments and different challenges differ in a branch share, and in each branch where they do, response difference over challenge difference is the discrete logarithm of that key |
| `Dvnizk.BranchExtracts` | tlslite/dvnizk.py:185-198 | Extraction in one branch |
| `Dvnizk.ExtractedKeyIsTheKey` | tlslite/dvnizk.py:174-198 | What is extracted is congruent to the secret key of the server or to that of the client |
| `CurveGroup.MulInjective` | tlslite/dvnizk.py:72-82 | Multiples of a point other than zero are equal exactly if the factors are congruent modulo n |
| `Dvnizk.WireRoundTrip` | tlslite/dvnizk.py:254-275 | Decoding undoes encoding on proofs with reduced scalars, in 160 bytes with each part in its place |
| `Dvnizk.ReencodeIffReduced` | tlslite/dvnizk.py:254-275 | 160 bytes are re-encoded identically exactly if all three scalar blocks encode values below n |
| `Dvnizk.TransportKeepsProof` | tlslite/dvnizk.py:254-275 | Every generated proof arrives as it was |
| `IntegersModulo.ResiduesAreLawful` | tlslite/dvnizk.py:72-82 | The integers modulo a prime satisfy all that is assumed of the curve |
| `CurveGroup.MulIsZero` | tlslite/dvnizk.py:72-82 | A multiple of a point other than zero vanishes exactly if the factor does modulo n |
| `CurveGroup.MulInverse` | tlslite/dvnizk.py:72-82 | Multiplying by the inverse modulo n divides |
| `CoordinateMap.ToMontgomeryUndoes` | tlslite/dvnizk.py:26-43 | For an odd prime the map of u to y has an inverse on all residues, the pole included, so it is injective |
| `CoordinateMap.ToEdwardsUndoes` | tlslite/dvnizk.py:26-43 | And it is onto: a permutation of the residues |
| `CoordinateMap.PointHasCoordinate` | tlslite/dvnizk.py:26-43 | The output is 32 bytes, least significant first, of the residue y with y (u + 1) = u - 1 modulo p, or of 1 at the pole |
| `CoordinateMap.KeysCollideIffCongruent` | tlslite/dvnizk.py:26-43 | Two encoded keys give the same point encoding exactly if they encode congruent numbers; the top bit takes part |
| `CoordinateMap.TopBitMatters` | tlslite/dvnizk.py:26-43 | For every odd prime, keys of 32 bytes that differ only in the top bit are given different points, though they are the same key in section 5 of RFC 7748 |
| `CoordinateMap.NotInjectiveModuloTwo` | tlslite/dvnizk.py:26-43 | Modulo 2 the map is not injective |
| `PrimeField.Fermat` | tlslite/dvnizk.py:36-40 | The power p-2 inverts modulo a prime, because the power p-1 is one |
| `PrimeField.InverseIsInverse` | tlslite/dvnizk.py:36-40 | pow(a, p-2, p) is the inverse of a |
| `Srp.SrpAgreementIff` | tlslite/keyexchange.py:848-917 | For all groups, passwords and coins: the server, given the verifier of the password, ends with the premaster secret of the client exactly if the public value of the client is not a multiple of N |
| `Srp.ExponentsAgree` | tlslite/keyexchange.py:871-917 | (B - k v)^(a + u x) and (A v^u)^b are equal modulo N |
| `Srp.ScramblingInputInjective` | tlslite/mathtls.py:928-939 | Padding makes the hashed pair of residues unambiguous |
| `Srp.HashInputs` | tlslite/mathtls.py:910-939 | Of what x, u and k are hashed: salt and inner hash; the public values, padded; modulus and padded generator |
| `Srp.ClientGoesAlongIff` | tlslite/keyexchange.py:884-917 | The client goes on exactly for a known group of acceptable size and a public value that is not zero modulo N |
| `Srp.HonestClientAccepted` | tlslite/keyexchange.py:871-882 | Modulo a prime an honest public value is never zero, so it is never rejected |
| `Srp.SrpKeyExchange.MakeServerKeyExchange` | tlslite/keyexchange.py:848-869 | Fails exactly for unknown users, and else keeps group, verifier, exponent and public value for the next message |
| `Srp.SrpKeyExchange.ProcessClientKeyExchange` | tlslite/keyexchange.py:871-882 | The premaster secret of the server, or refusal of a multiple of N |
| `Srp.SrpKeyExchange.ProcessServerKeyExchange` | tlslite/keyexchange.py:884-917 | The checks in their order, then public value and premaster secret of the client |
| `FiniteFieldDh.OutcomesAgreeIff` | tlslite/keyexchange.py:985-1030 | Both sides get the same key bytes or both refuse, exactly if both shares are zero or neither is |
| `FiniteFieldDh.PrimeOutcomesAgree` | tlslite/keyexchange.py:985-1030 | Modulo a prime both sides always have the same outcome |
| `FiniteFieldDh.SharedKeyNeverTrivial` | tlslite/keyexchange.py:1011-1030 | Whatever a peer sends, an accepted share and the secret from it lie outside of the trivial subgroup, and have the length of the prime in TLS 1.3 |
| `FiniteFieldDh.SharedKeyIsPower` | tlslite/keyexchange.py:1011-1030 | The key is the power of the share of the peer, without zeros in front before TLS 1.3 |
| `FiniteFieldDh.CompositeOutcomesDiffer` | tlslite/keyexchange.py:957-972 | The constructor admits composite moduli, and modulo 8 one side gets a key that the other refuses |
| `FiniteFieldDh.ShareArrives` | tlslite/keyexchange.py:1001-1009 | A share is read back, in either form, as the power it was made from |
| `ByteStrings.LeadingZeros` | tlslite/mathtls.py:928-933 | Zeros in front do not change a number |
| `PrfLoops.PHash` | tlslite/mathtls.py:679-698 | The loop fills the buffer with the first bytes of the infinite stream of section 5 of RFC 5246 |
| `PrfLoops.StreamPrefix` | tlslite/mathtls.py:679-698 | Shorter outputs are prefixes of longer ones |
| `PrfLoops.StreamBegins` | tlslite/mathtls.py:679-698 | The stream begins with HMAC(A(1) + seed) and HMAC(A(2) + seed) |
| `PrfLoops.Prf` | tlslite/mathtls.py:701-714 | The in-place xor of the two streams over the halves of the secret |
| `PrfLoops.HalvesCover` | tlslite/mathtls.py:703-706 | The halves are equally long, cover the secret, and share its middle byte if the length is odd |
| `PrfLoops.XoredPrefix` | tlslite/mathtls.py:701-714 | Prefix property of the PRF of TLS 1.0 and 1.1 |
| `PrfLoops.PrfSsl` | tlslite/mathtls.py:724-736 | The nested loops fill the buffer from 26 rounds of 16 bytes and leave zeros beyond |
| `PrfLoops.OldStreamFilledIff` | tlslite/mathtls.py:724-736 | Every byte comes from a round exactly up to length 416; the rest is zero |
| `PrfLoops.KeyPrefix` | tlslite/mathtls.py:827-908 | In every version that calc_key accepts, keying material has the requested length and the prefix property |
| `PrfLoops.KeyByVersion` | tlslite/mathtls.py:827-908 | TLS 1.2 takes the stream of its hash; before, each byte xored with the SHA-1 stream of the second half gives the MD5 stream of the first |
| `PrfLoops.SeedsAndLabels` | tlslite/mathtls.py:827-908 | The labels as they are spelled, and the randoms in the order that each takes them |
| `PrfLoops.RoundsSpelled` | tlslite/mathtls.py:724-736 | The rounds open with A, BB, and so on to 26 Zs |
| `PrfLoops.CalcKey` | tlslite/mathtls.py:827-908 | Dispatch over versions, hashes and labels, with the seed that each label asks for |
| `SessionCaches.RunRefines` | tlslite/sessioncache.py:53-103 | With a monotone clock and fresh identifiers every run of the cache agrees with an ordered list of sessions with ages, never fails internally, and keeps at most maxEntries - 1 sessions |
| `SessionCaches.RunSafeIffFresh` | tlslite/sessioncache.py:53-103 | No state of a run can ever make a purge fail exactly if no identifier is stored while it is still in the list |
| `SessionCaches.InsertSafeIffFresh` | tlslite/sessioncache.py:72-88 | From a consistent cache an insertion keeps it consistent, and all later purges safe, exactly if the identifier is fresh or the cache has a single slot |
| `SessionCaches.SafeIffCovered` | tlslite/sessioncache.py:89-103 | Purging can never fail exactly if the identifiers in the list are distinct and all in the dictionary |
| `SessionCaches.StoringTwiceFails` | tlslite/sessioncache.py:72-103 | Storing a session twice makes a later purge fail |
| `SessionCaches.StepRefines` | tlslite/sessioncache.py:53-103 | One operation: insertion order eviction, and purging keeps exactly what is not too old |
| `SessionCaches.ExpireLeaves` | tlslite/sessioncache.py:92-103 | Purging leaves exactly the young entries, and nothing else in the dictionary |
| `SessionCacheRing.WindowPush` | tlslite/sessioncache.py:78-88 | Writing at the last index appends to the window, or fills the ring |
| `SessionCacheRing.WindowPop` | tlslite/sessioncache.py:96-103 | Advancing the first index drops the oldest entry |
| `SessionCacheRing.SessionCache.Purge` | tlslite/sessioncache.py:89-103 | The loop over the ring deletes what is expired; after an internal failure the index has not moved |
| `SessionCacheRing.SessionCache.GetItem` | tlslite/sessioncache.py:53-69 | After purging, the very session stored, if it is still there and still valid |
| `SessionCacheRing.SessionCache.SetItem` | tlslite/sessioncache.py:72-88 | Dictionary, ring and indices after storing, errors included |
| `PskBinding.SignThenVerify` | tlslite/handshakehelpers.py:76-164 | If each placeholder has the length of its hash, then after update_binders every position verifies under the key used for it, tickets and external keys in any mixture |
| `PskBinding.SigningKeepsTruncation` | tlslite/handshakehelpers.py:98-134 | Under the same condition the signed hello can be written and its truncation is what was signed |
| `PskTruncation.TruncationUnchangedIff` | tlslite/messages.py:680-700 | Other binders leave the truncation unchanged exactly if they take as many bytes in all |
| `PskTruncation.TruncationIsPrefix` | tlslite/messages.py:680-700 | Truncation cuts exactly in front of the list of binders, and what is left depends on the binders through their total size alone |
| `PskBinding.SignedBinders` | tlslite/handshakehelpers.py:104-134 | The loop puts the binder of its key at each position and leaves the others alone |
| `PskBinding.KeysBelong` | tlslite/handshakehelpers.py:106-125 | Each key is that of the first ticket of the identity, or else of some configuration for it |
| `PskBinding.AcceptedBinderIsUnique` | tlslite/handshakehelpers.py:147-164 | At each position at most one binder is accepted under a key, and it has the length of the hash |
| `PskBinding.BinderIsFinished` | tlslite/handshakehelpers.py:44-61 | A binder is the MAC, under the finished key of section 4.4 of RFC 8446 from the binder key of section 7.1, of the digest of handshake and truncation |
| `PskBinding.BinderBindsTranscript` | tlslite/handshakehelpers.py:44-61 | No key gives two hellos the same binder, if the MAC tells their digests apart |
| `PskBinding.MovedBindersFail` | tlslite/handshakehelpers.py:76-164 | Binders signed for one hello are refused in any other that the MAC tells apart |
| `PskBinding.BinderBindsKey` | tlslite/handshakehelpers.py:44-61 | Another secret, or the other origin of it, gives another binder, as far as MAC and expansion tell the keys apart |
| `PskBinding.TicketKey` | tlslite/handshakehelpers.py:63-74 | The key of a ticket is expanded from the resumption master secret and its nonce, with the hash that the length tells |
| `PskBinding.ConfiguredKey` | tlslite/handshakehelpers.py:106-125 | A configured key is external, for SHA-256 unless another hash is named |
| `ClientHelloObjects.ClientHello.UpdateBinders` | tlslite/handshakehelpers.py:76-134 | The loop patches the binders in place; those set before a failure stay |
| `ClientHelloObjects.ClientHello.VerifyBinder` | tlslite/handshakehelpers.py:137-164 | Accepts exactly the binder that the key gives for the truncation |
| `ClientHelloObjects.ClientHello.PskTruncate` | tlslite/messages.py:680-700 | The loop over the binders, and the errors for a missing or misplaced extension |
| `ClientHellos.HelloRoundTripIff` | tlslite/messages.py:603-678 | A ClientHello that can be written reads back to the last byte exactly if it has 32 random bytes, a session identifier of at most 32 bytes, and recoverable extensions |
| `ClientHellos.HelloOnly` | tlslite/messages.py:603-678 | Whatever reads as a ClientHello can be written unless key shares are not set, and is then its own encoding exactly if no bytes stand behind the user name of an SRP extension |
| `ClientHellos.HelloBegins` | tlslite/messages.py:661-678 | Type, length, version, random bytes, session identifier and the length of the cipher suites, byte for byte |
| `Extensions.BlockRoundTrip` | tlslite/messages.py:630-637 | A block of extensions reads back exactly if each of them is recoverable |
| `Extensions.BlockOnly` | tlslite/messages.py:630-637 | What reads as a block can be written unless key shares are not set, and is then its own encoding, or longer than it if an SRP extension has bytes behind the user name |
| `Extensions.ExtensionRoundTrip` | tlslite/extensions.py:182-251 | Over all 22 types with a parser of their own: a written extension reads back, leaving what follows, exactly if it is not raw data under such a type, and not one of the unset values of srp, alpn, supports_npn, session_ticket, heartbeat and status_request that cannot be told apart or read |
| `Extensions.ExtensionOnly` | tlslite/extensions.py:211-251 | What reads as an extension is recoverable, can be written but for unset key shares, and is its own encoding but for bytes behind an SRP user name |
| `Extensions.PayloadBack` | tlslite/extensions.py:446-632 | Lists of numbers, of pairs and of strings, single numbers and strings, server names, key shares, pre-shared keys and status requests read back through their nested lengths, the unset and the empty value told apart |
| `Extensions.PayloadOnly` | tlslite/extensions.py:2223-2247 | Whatever any of the parsers accepts is its own encoding, with the two exceptions |
| `Extensions.TrailingBytesGetLost` | tlslite/extensions.py:1079-1092 | An SRP extension with a byte behind the user name is read without complaint and written shorter |
| `Extensions.WireTable` | tlslite/extensions.py:2223-2247 | The registered type numbers, and the bytes of items and lengths in each |
| `Extensions.ExtensionBegins` | tlslite/extensions.py:182-201 | Type and length in front of the payload, byte for byte |
| `Extensions.ItemsLaidOut` | tlslite/extensions.py:786-797 | Server names, key shares and identities, byte for byte |
| `Extensions.IdentitiesFaithful` | tlslite/extensions.py:2048-2060 | Identities are written and read inversely |
| `Extensions.SharesFaithful` | tlslite/extensions.py:1824-1844 | Key share entries are written and read inversely |
| `Extensions.NamesFaithful` | tlslite/extensions.py:778-845 | Server names are written and read inversely |
| `Codec.ItemsBack` | tlslite/utils/codec.py:416-461 | A list of items read under a length check is the list written, for every codec that reads back its items |
| `Codec.ItemsOnly` | tlslite/utils/codec.py:416-461 | What such a loop accepts is the encoding of what it returns |
| `Codec.StringsFaithful` | tlslite/utils/codec.py:243-347 | Binders, protocol names and responders: strings behind their lengths are written and read inversely |
| `Codec.NumbersFaithful` | tlslite/utils/codec.py:80-310 | Numbers of any fixed size are written and read inversely |
| `Codec.PairsFaithful` | tlslite/utils/codec.py:208-410 | Pairs of bytes are written and read inversely |
| `Codec.UnevenItems` | tlslite/utils/codec.py:366-410 | No list of items of n bytes has a length that is not a multiple of n |
| `Codec.Writer.Add` | tlslite/utils/codec.py:80-96 | Exactly n bytes are added, or ValueError and nothing |
| `Codec.Writer.AddVarBytes` | tlslite/utils/codec.py:243-257 | Length and data are added, or nothing |
| `Codec.Parser.Get` | tlslite/utils/codec.py:300-310 | A big-endian number, or DecodeError at the end of the buffer |
| `Codec.Parser.GetVarBytes` | tlslite/utils/codec.py:334-347 | A string behind its length |
| `Codec.Parser.AtLengthCheck` | tlslite/utils/codec.py:446-461 | Whether the structure ends here; having read past its end is an error |
| `Codec.Parser.GetVarList` | tlslite/utils/codec.py:366-386 | The list of equally long numbers behind its length; a length that is not a multiple is an error |
| `Codec.Parser.GetVarPairs` | tlslite/utils/codec.py:388-414 | The same for pairs of bytes |
| `ClientHelloObjects.ClientHello.Write` | tlslite/messages.py:661-678 | The writers produce the specified encoding |
| `ClientHelloObjects.ClientHello.Parse` | tlslite/messages.py:603-638 | The parser sets all fields as specified, or raises; a message without extensions leaves those that the object had |
| `ClientHelloObjects.ParsePayload` | tlslite/extensions.py:2223-2247 | The table of 22 parsers, each as specified |
| `ClientHelloObjects.ParseExtension` | tlslite/extensions.py:211-251 | Header, payload and trailing data of one extension |
| `ClientHelloObjects.ParseExtensions` | tlslite/messages.py:630-637 | The loop over a block of extensions |
| `ClientHelloObjects.ParseIdentities` | tlslite/extensions.py:2109-2114 | The loop over identities under a length check |
| `ClientHelloObjects.ParseStrings` | tlslite/extensions.py:2116-2121 | The loop over binders, protocol names or responders |
| `ClientHelloObjects.ParseShares` | tlslite/extensions.py:1923-1928 | The loop over key shares |
| `ClientHelloObjects.ParseNames` | tlslite/extensions.py:834-840 | The loop over server names |
| `ClientHelloObjects.ParseNumbers` | tlslite/extensions.py:485-502 | Lists of numbers, absent where the payload is empty |
| `ClientHelloObjects.ParsePairs` | tlslite/extensions.py:549-566 | Lists of pairs |
| `ClientHelloObjects.ParseNpn` | tlslite/extensions.py:1151-1166 | Protocol names up to the end of the payload |
| `ClientHelloObjects.ParseStatusRequest` | tlslite/extensions.py:1736-1760 | Type, responders and request extensions, and nothing behind them |
| `AsyncStateMachines.RunsStaySafe` | tlslite/integration/asyncstatemachine.py:48-70 | In every run of events, with callbacks that start operations re-entrantly, catch and raise, the run-time check passes before and after every event and at every callback |
| `AsyncStateMachines.OperationKeepsClean` | tlslite/integration/asyncstatemachine.py:126-241 | Every operation, whatever happens in it, leaves at most one operation active and the result set exactly if one is |
| `AsyncStateMachines.CheckIffClean` | tlslite/integration/asyncstatemachine.py:48-70 | The run-time check decides that invariant exactly |
| `AsyncStateMachines.YieldKeepsCleanIff` | tlslite/integration/asyncstatemachine.py:163-192 | The invariant survives a yield of a handshake, close or write generator exactly if it yields 0 or 1; otherwise the next event fails |
| `AsyncStateMachines.CallbackStartsCleared` | tlslite/integration/asyncstatemachine.py:163-185 | A callback always finds no operation active, so it may start any |
| `AsyncStateMachines.OnlyOneOperation` | tlslite/integration/asyncstatemachine.py:194-241 | Starting an operation while one is active fails and clears both |
| `AsyncStateMachines.EventsDriveOperation` | tlslite/integration/asyncstatemachine.py:126-161 | While an operation waits, either event takes its generator one step on and changes nothing else |
| `AsyncStateMachines.OperationsStart` | tlslite/integration/asyncstatemachine.py:194-241 | Each set method, and a readable socket, starts the operation of its name |
| `AsyncStateMachines.BoundariesHold` | tlslite/integration/asyncstatemachine.py:100-124 | The check passes at every call that a callback makes, at any depth |
| `AsyncStateMachines.AsyncStateMachine.Handle` | tlslite/integration/asyncstatemachine.py:126-161 | Events and set operations act on the fields as specified, and any exception clears them |
| `AsyncStateMachines.AsyncStateMachine.DoHandshakeOp` | tlslite/integration/asyncstatemachine.py:163-169 | A finished handshake is cleared before it is reported |
| `AsyncStateMachines.AsyncStateMachine.DoReadOp` | tlslite/integration/asyncstatemachine.py:179-185 | Data is handed over after the reader is cleared; a reader that just stops is an error |
| `AsyncStateMachines.AsyncStateMachine.WantsReadEvent` | tlslite/integration/asyncstatemachine.py:72-84 | None exactly if no operation is active |
| `AsyncStateMachines.AsyncStateMachine.WantsWriteEvent` | tlslite/integration/asyncstatemachine.py:86-98 | None exactly if no operation is active |

## Left out

- Sockets, generators that yield while waiting, threads and locks: a method that would wait for the network returns instead.
- SSLv2 in the record layer and in the ClientHello: a framing of its own, without the invariants of the others.
- The handshake state machine, certificates, X.509, compression and post-handshake authentication: they rest on code outside these files.
- Alerts on the channel: a received alert ends reading; the close_notify sent in answer and the alert sent with each local error are not modelled, nor is a renegotiation request before TLS 1.3.
- Heartbeat messages: taken as not negotiated, so they are refused.
- `closed` and shutdown of a connection: after a failed write or read the model stops where the original shuts down.
- NewSessionTicket bodies: tickets travel as whole handshake messages whose contents are not parsed.
- The forms that some extensions take in a ServerHello, a HelloRetryRequest or a Certificate message: only the table of parsers that a ClientHello is read with is modelled.
- Tuples of other than two bytes in the lists of signature algorithms and versions: the writer would take them, the parser never makes them.
- SessionTicketPayload and the padding of the ClientHello to 512 bytes: they would only add easy members.
- The mathematics and the secrecy of ciphers, hashes and curves; the bias of random scalars; timing: the constant-time check of CBC padding and MAC is modelled by what it decides.
- Record sizes of zero: the loops of `flush` and `_sendMsg` do not end there, so at least one byte is required.
- libsodium's treatment of scalars at or above 2^255: scalars are reduced below n before they reach it.
- Dvnizk.Completeness: acceptance has the exception of vanishing scalars, because the library raises there.
- Convergence.RepliesTerminate: speaks of runs in which every turn succeeds; Convergence.Converges and SendingLimits.ReadFailsIff say when one fails.
