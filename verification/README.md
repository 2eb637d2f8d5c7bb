# Verification of the Tailscale component's protocol core

A Dafny model of the parts of the ESPHome Tailscale component in which what one side writes the other must read back
exactly, across loops, buffers and arbitrary chunking, with proofs that it does.

- **Noise handshake** (Bytes, NoiseBase, HashState, CipherState, SymmetricState, DhState, Handshake, HandshakeState,
  Agreement, Patterns, Progress, Transcript). The interpreter over a token list, written and read, for two roles; HMAC,
  HKDF and PBKDF2; the cipher, key-agreement and symmetric states. The theorem is agreement: over any legal token list
  two parties stay in step and split into matching ciphers; with keys, PSK and room at hand they do get there (Progress);
  and their keys, hash and messages are what the pattern and the key material call for (Transcript). `LawfulNoise`
  collects the hypotheses on the primitives: sizes, decrypt undoes encrypt, and Diffie-Hellman commutes.
- **Transport** (WebSocket, Channel, Transport, TransportState). Noise records inside WebSocket frames over a
  connection that cuts bytes anywhere.
- **HTTP/2 and JSON** (Hpack, HpackFields, Http2, Http2Body, Http2Post, Http2Session, Json, JsonStream, Completion).
  Frames, flow control, headers, when a call succeeds, the streaming extractor of the Node member and the completion
  detector. Json is the grammar the texts are drawn from.
- **Protocol names** (Names), **NaCl box** (Salsa).
- **Device runtime** (Pool, TxPool, Checksum, Tcp, TcpReplies, Lru). Buffer pools under every interleaving, the Internet
  checksum, in-order TCP receive and its answers, peer activation with eviction.

Code that updates state in place is a class or a method on arrays, proved equal to a function on values; the theorems
are about those functions. Bytes are integers from 0 to 255 and exclusive-or is arithmetic on bits, so there are no
bit-vectors. JSON and response text is a sequence of characters, one for each byte.

Where the code and what is said about it differ, the code is modelled:

- A handshake over an *arbitrary* token list does not always agree. `Agreement.EarlyDhStrandsTheReader` gives a list
  on which it fails, `Agreement.Legal` is the condition on the pattern, and `Patterns.PatternAgrees` shows that every
  pattern the library can expand meets it.
- A complete JSON text below 100 bytes is reported incomplete (`Completion.CompleteIffHundred`). A length prefix whose
  first byte is 0x7B is read as text (`Completion.ReadFrom`). It hides the object when its other bytes leave the brace
  open, and not when they close it again (`Completion.BraceLengthIff`), as they do for length 32123. When they close too
  many, or open a string, the object is recognised only at a brace in the midst of it with a window of blanks behind
  (`Completion.BraceLengthBelow`, `Completion.QuoteLengthIff`).
- The HTTP/2 buffer is discarded above 32768 bytes, and only then are bytes lost (`Http2.ReadConservesIff`). A frame
  already buffered waits until another message brings something (`Http2.BufferedFrameWaits`).
- The length in front of a response is looked for only in a DATA frame of five bytes or more (`Http2Body.TogetherIff`).
  Cut off from the text by the end of a frame, it goes unrecognised: a filtered response is then discarded up to a later
  frame that happens to look like a length and a brace (`Http2Body.SplitLengthDiscarded`, `Http2Body.FilterIs`), and an
  unfiltered one is buffered with it (`Http2Body.SplitLengthBuffered`).
- A WebSocket frame over 8192 bytes blocks the connection for good (`Transport.DeliveredIff`).
- The status reader takes a status of 127 bytes for zero (`Hpack.LongStatusReadsZero`) and misreads most longer ones
  (`Hpack.LongStatusIff`).
- Of the indexed statuses only 200 is read, and a status whose literal is indexed or has an indexed name is not read at
  all (`HpackFields.StatusIff`).
- The lookup of a TCP connection takes no account of the local port (`TcpReplies.OtherPortTaken`).
- A FIN without data closes the connection wherever it comes, and its number is compared as an integer, not modulo 2^32.
  Ahead of bytes never received it acknowledges them, unless the numbers wrap in between (`Tcp.BareFinAcknowledgesIff`,
  `Tcp.EarlyFinAcknowledgesAll`). A FIN with data is not acknowledged (`Tcp.FinAcknowledgedIff`).
- A field name that equals Node after its escapes are dropped is taken for Node (`JsonStream.EscapedNameComesFirst`).
- A repeated SYN advances the sequence number again (`Tcp.RepeatedSynIff`).
- Outgoing texts carry a big-endian length, while the length looked for in a response is little-endian
  (`Http2Session.Http2Session.SendDataOnStream`, `Completion.PrefixedComplete`).
- PBKDF2 with an iteration count of zero behaves as with one (`HashState.HashState.Pbkdf2`).

`dafny verify dfyconfig.toml` checks the whole project; every proof fits a resource limit of two million.

## Model

| member | source | states |
|---|---|---|
| Agreement.HandshakeAgrees | components/tailscale/noise/src/protocol/handshakestate.c:846-910 | For any token list that passes a check on the pattern alone (keys mixed only once known, statics sent only by a side that has one), two parties with the same prologue, PSK and matching pre-message keys never refuse each other's messages over any run; every payload comes back as sent, the actions stay complementary, both reach the split together, with equal symmetric states and crossed transport ciphers |
| Agreement.RunAgrees | components/tailscale/noise/src/protocol/handshakestate.c:1188-1672 | The same for a run from any point at which the two are in step: no read is refused, the payloads received are those sent, and writer and reader end in step with complementary actions |
| Agreement.MessageAgrees | components/tailscale/noise/src/protocol/handshakestate.c:1432-1456 | Whatever write_message produced, read_message on the other side accepts: it returns the payload, and both parties are in step again, with the turn handed over or both ready to split |
| Agreement.TokensAgree | components/tailscale/noise/src/protocol/handshakestate.c:1472-1672 | Reading the tokens of a written message consumes exactly the bytes that writing them produced, whatever bytes follow, and reaches the same key, hash, nonce and position |
| Agreement.TokenAgrees | components/tailscale/noise/src/protocol/handshakestate.c:1188-1392 | One token of each kind: E, S, EE, ES, SE, SS, PSK written by one side and read by the other keep both in step |
| Agreement.DhAgrees | components/tailscale/noise/src/protocol/handshakestate.c:1165-1175 | For each of EE, ES, SE, SS the pairs chosen by the two roles are present and give one shared key |
| Agreement.StartAgrees | components/tailscale/noise/src/protocol/handshakestate.c:846-910 | Started with the same prologue and mirrored pre-message keys, initiator and responder are in step, one to write and the other to read |
| Agreement.SplitMatches | components/tailscale/noise/src/protocol/handshakestate.c:1773-1800 | Parties in step split into ciphers that cross over: what one sends under is what the other receives under, both ways |
| Agreement.NullEphemeralRefused | components/tailscale/noise/src/protocol/handshakestate.c:1502-1531 | An ephemeral that is the null public key is refused by its reader |
| Agreement.ReadNeedsPrivateKeys | components/tailscale/noise/src/protocol/handshakestate.c:1557-1589 | Whatever the message, a reader whose own key at some Diffie-Hellman token of it is not a keypair fails to read it |
| Agreement.EarlyDhStrandsTheReader | components/tailscale/noise/src/protocol/handshakestate.c:1265-1270 | The check on the pattern cannot be dropped: with the list e, ee the initiator writes its message, mixing with a null key, and no responder can read it |
| Agreement.UnsetStaticIsSent | components/tailscale/noise/src/protocol/handshakestate.c:1253-1265 | Nor is it necessary for agreement: with the list s alone and no static key the null key is written and read, and both sides finish in step |
| Progress.HandshakeReaches | components/tailscale/noise/src/protocol/handshakestate.c:846-910 | And nothing is refused on writing either: with key agreement defined for the keys at hand, the ephemeral objects and the PSK the list wants, room for its tokens and as many deliveries as it has messages, the whole handshake reaches the split on both sides, with crossed ciphers and every payload recovered |
| Progress.RunReaches | components/tailscale/noise/src/protocol/handshakestate.c:1188-1456 | The same from any point at which the two are in step |
| Progress.PatternReaches | components/tailscale/noise/src/protocol/patterns.c:672-729 | For each base pattern with any pskN modifiers that expand, with nothing left to assume about the token list |
| Transcript.SecretIsMixed | components/tailscale/noise/src/protocol/handshakestate.c:1165-1175 | What a Diffie-Hellman token mixes in, for either role, is the agreement of the initiator's key of its first letter with the responder's key of its second |
| Transcript.MessageIs | components/tailscale/noise/src/protocol/handshakestate.c:1188-1456 | A message that was written, and the state of both sides behind it, are what its tokens, the key material and the payload call for, the symmetric operations spelled out in HMACs and AEAD calls as in section 5 of the Noise specification |
| Transcript.RunIs | components/tailscale/noise/src/protocol/handshakestate.c:1188-1672 | The same for a run, with all that was on the wire |
| Transcript.HandshakeIs | components/tailscale/noise/src/protocol/handshakestate.c:846-910 | From the start: the hash has taken in prologue, pre-message keys and every piece of every message, the chaining key is the HKDF chain over the secrets (with PSK, and the ephemerals where a PSK is wanted) in token order, and each role's transport keys are the first and second output for an empty input |
| Transcript.HandshakesBind | components/tailscale/noise/src/protocol/handshakestate.c:846-910 | Two handshakes under one pattern that end with the same chaining key and hash had the same name, prologue, keys, PSK, secrets and payloads, or two different inputs that the hash was given in them have one digest |
| Transcript.InitialIs | components/tailscale/noise/src/protocol/symmetricstate.c:92-110 | A handshake begins with the name filled up with zeros, or with its digest if it is longer |
| Handshake.WritePrefixed | components/tailscale/noise/src/protocol/handshakestate.c:1188-1392 | Writing tokens behind bytes already in the message comes to those bytes followed by what writing into an empty message of the remaining room gives |
| HandshakeState.HandshakeState.StartHandshake | components/tailscale/noise/src/protocol/handshakestate.c:846-910 | In place: the object ends in the state Start gives, or refuses with the same error and is unchanged |
| HandshakeState.HandshakeState.SetPsk | components/tailscale/noise/src/protocol/handshakestate.c:606-619 | Stores a PSK of exactly 32 bytes; any other length is refused and changes nothing |
| HandshakeState.HandshakeState.SetPrologue | components/tailscale/noise/src/protocol/handshakestate.c:679-706 | Only before the start; refused afterwards, with nothing changed |
| HandshakeState.HandshakeState.MixDhToken | components/tailscale/noise/src/protocol/handshakestate.c:1165-1175 | Mixes the key that the token and the role call for, which Transcript.SecretIsMixed states from the keys, and returns the error of the calculation |
| HandshakeState.HandshakeState.WriteAllTokens | components/tailscale/noise/src/protocol/handshakestate.c:1188-1392 | The loop over the tokens appends to the caller's buffer exactly what the token functions give and turns the action round, or fails with the same error |
| HandshakeState.HandshakeState.WriteHandshakeMessage | components/tailscale/noise/src/protocol/handshakestate.c:1432-1456 | write_message on the caller's buffer is Write: message, new state or error; an error makes the action failed |
| HandshakeState.HandshakeState.ReadAllTokens | components/tailscale/noise/src/protocol/handshakestate.c:1472-1672 | The reading loop consumes the front of the message in place, as ReadTokens does |
| HandshakeState.HandshakeState.ReadHandshakeMessage | components/tailscale/noise/src/protocol/handshakestate.c:1711-1735 | read_message decrypts in place and is Read: payload, new state or error, and the caller's limit on the payload is kept |
| HandshakeState.HandshakeState.SplitTransport | components/tailscale/noise/src/protocol/handshakestate.c:1773-1800 | Hands out the ciphers of SplitFor in the order of the role, once and only when the handshake is ready for it |
| Patterns.PatternAgrees | components/tailscale/noise/src/protocol/patterns.c:672-729 | For each base pattern with any pskN modifiers that expand, the whole handshake agrees, with nothing left to assume about the token list |
| Patterns.BaseLegal | components/tailscale/noise/src/protocol/patterns.c:30-442 | Every base pattern in the table sends statics only from a side that has one and mixes keys only once known, and ends with END |
| Patterns.TableIsMeant | components/tailscale/noise/src/protocol/patterns.c:30-442 | The table holds for every name exactly the tokens and flags that its letters mean: static keys absent, known, transmitted or sent at once, and keys mixed as soon as both are there |
| Patterns.ExpandPlaces | components/tailscale/noise/src/protocol/patterns.c:610-656 | psk0 puts its token in front of everything and pskN at the end of the N-th message, and nothing else changes |
| Patterns.InsertKeepsLegal | components/tailscale/noise/src/protocol/patterns.c:610-656 | Inserting a psk token at any place keeps a list legal |
| Patterns.ExpandAllKeeps | components/tailscale/noise/src/protocol/patterns.c:703-728 | So does any run of modifiers, and the list still ends and gains nothing but psk tokens |
| Patterns.ExpansionFits | components/tailscale/noise/src/protocol/handshakestate.c:69-90 | The key objects made from the pattern's flags are those its expanded tokens name, in both roles |
| Patterns.ExpandPsk | components/tailscale/noise/src/protocol/patterns.c:610-656 | The expanding loop is the recursive insertion, with its error for a place that does not exist, a doubled psk or a full table |
| CipherState.SealThenOpen | components/tailscale/noise/src/protocol/cipherstate.c:297-414 | What one cipher seals, a cipher in the same state opens to the plaintext, both ending in the same state; the result fits the buffer and the Noise maximum |
| CipherState.NoncesNeverRepeat | components/tailscale/noise/src/protocol/cipherstate.c:522-539 | Over any mixture of seal, open, set_nonce and rekey no nonce is used twice under one key, none goes backwards, and the reserved one is never used |
| CipherState.CipherState.EncryptWithAd | components/tailscale/noise/src/protocol/cipherstate.c:297-337 | In place: buffer and state become those of Seal, or stay as they were with its error; bytes outside the buffer's window are untouched |
| CipherState.CipherState.DecryptWithAd | components/tailscale/noise/src/protocol/cipherstate.c:377-414 | In place: as Open; on an error neither the state nor the visible contents change |
| CipherState.CipherState.SetNonceTo | components/tailscale/noise/src/protocol/cipherstate.c:522-539 | Only forwards and only with a key |
| CipherState.CipherState.RekeyNow | components/tailscale/noise/src/protocol/cipherstate.c:575-608 | The new key is the head of a block of zeros sealed under the reserved nonce; the counter stays |
| SymmetricState.EncryptThenDecrypt | components/tailscale/noise/src/protocol/symmetricstate.c:407-500 | Two parties in one symmetric state stay in one: what one encrypts and hashes the other decrypts and hashes, with the length known in advance |
| SymmetricState.EncryptFailsOnlyWhen | components/tailscale/noise/src/protocol/symmetricstate.c:407-431 | Encryption succeeds if and only if the bytes fit the room and the Noise maximum and the nonce is not spent |
| SymmetricState.SymmetricState.DoMixKey | components/tailscale/noise/src/protocol/symmetricstate.c:262-292 | HKDF reads the chaining key from the buffer its first output goes to and still gives MixKey of section 5.2 of the Noise specification |
| SymmetricState.SymmetricState.DoMixKeyAndHash | components/tailscale/noise/src/protocol/symmetricstate.c:340-376 | The same for MixKeyAndHash |
| SymmetricState.SymmetricState.DoEncryptAndHash | components/tailscale/noise/src/protocol/symmetricstate.c:407-431 | The caller's buffer becomes the ciphertext of EncryptAndHash, and the hash has absorbed it |
| SymmetricState.SymmetricState.DoDecryptAndHash | components/tailscale/noise/src/protocol/symmetricstate.c:457-500 | The ciphertext is hashed before decryption overwrites it, and the hash kept only if the MAC is good: on an error the state is unchanged |
| SymmetricState.SymmetricState.DoSplit | components/tailscale/noise/src/protocol/symmetricstate.c:569-628 | The first cipher is the handshake's own, rekeyed, the second a new one; together they are Split |
| DhState.CalculateAgrees | components/tailscale/noise/src/protocol/dhstate.c:691-723 | From their own pair and the other's public half both ends compute one shared key, or one error, if and only if both public keys are null, neither is, or the result is zeros anyway |
| DhState.DHState.ClearKey | components/tailscale/noise/src/protocol/dhstate.c:628-641 | Both halves become zeros and no key is left; a null key that is then looked up is the one Cleared stands for |
| DhState.IsZeroConstantTime | components/tailscale/noise/src/protocol/util.c:212-225 | Or-ing all bytes and folding the result gives 1 exactly for all zeros |
| DhState.CMoveZero | components/tailscale/noise/src/protocol/dhstate.c:651-663 | The masking loop zeroes the data when the condition is 1 and leaves it alone when it is 0 |
| DhState.DHState.SetPublicKey | components/tailscale/noise/src/protocol/dhstate.c:516-540 | A null key is refused unless nulls are allowed, a wrong length always; then nothing changes |
| DhState.DHState.CalculateShared | components/tailscale/noise/src/protocol/dhstate.c:691-723 | The masked result is that of Calculate, though the masking comes after the calculation |
| HashState.HashState.ComputeHmac | components/tailscale/noise/src/protocol/hashstate.c:414-457 | HMAC of section 2 of RFC 2104, also when the data and the hash are one buffer; bytes behind the hash are untouched |
| HashState.InnerToOuterPad | components/tailscale/noise/src/protocol/hashstate.c:446-454 | Turning the inner pad into the outer by one exclusive-or gives the key under the outer pad |
| HashState.HashState.ComputeHkdf | components/tailscale/noise/src/protocol/hashstate.c:484-524 | The two outputs are blocks 1 and 2 of section 2.3 of RFC 5869, even when key, data and the first output share a buffer; refused exactly when a length exceeds the hash, and then nothing is written |
| HashState.HashState.ComputeHkdf3 | components/tailscale/noise/src/protocol/hashstate.c:554-601 | The same for three |
| HashState.HashState.Pbkdf2 | components/tailscale/noise/src/protocol/hashstate.c:626-681 | Writes exactly the first output_len bytes of T(1) then T(2) then ... of section 5.2 of RFC 2898 and nothing behind them; no block index is truncated; a count of zero behaves as one |
| HashState.HashState.PbkdfBlock | components/tailscale/noise/src/protocol/hashstate.c:649-669 | Rehashing U in place and gathering in T gives F(P, S, c, i) |
| HashState.PbkdfOutputsNest | components/tailscale/noise/src/protocol/hashstate.c:626-681 | A shorter output is a prefix of a longer one |
| HashState.HmacIs | components/tailscale/noise/src/protocol/hashstate.c:414-457 | Byte by byte: the hash of the key under 0x5c and of the hash of the key under 0x36 and the text; a key longer than a block is hashed first |
| HashState.BlockIs | components/tailscale/noise/src/protocol/hashstate.c:649-669 | Each byte of F is the exclusive-or of that byte of all the iterates, the first one of the salt and the block number with its highest byte first |
| HashState.OutputIs | components/tailscale/noise/src/protocol/hashstate.c:626-681 | At place i * hLen + k of the output stands byte k of block i + 1 |
| WebSocket.DecodeOfFrame | components/tailscale/ts2021_upgrade.cpp:109-230 | Decoding a frame, masked as a client sends it or unmasked as a server does, gives the payload and takes the whole frame whatever follows, for every payload up to 8192 bytes; a longer frame is never taken |
| WebSocket.PrefixWaits | components/tailscale/ts2021_upgrade.cpp:148-230 | No proper prefix of a frame is taken |
| WebSocket.MaskingTwice | components/tailscale/ts2021_upgrade.cpp:138-141 | Masking is its own inverse |
| WebSocket.EncodeFrame | components/tailscale/ts2021_upgrade.cpp:109-144 | The bytes pushed one by one are the masked frame of section 5.2 of RFC 6455, with each of the three length forms |
| WebSocket.FrameExamples | components/tailscale/ts2021_upgrade.cpp:109-144 | The two examples of section 5.7 of RFC 6455, masked and unmasked |
| WebSocket.LongLengths | components/tailscale/ts2021_upgrade.cpp:109-144 | 126 and sixteen bits, or 127 and sixty-four, the highest byte first, with the mask bit if and only if there is a mask |
| Channel.Ts2021Upgrade.DecodeFrame | components/tailscale/ts2021_upgrade.cpp:148-230 | Payload and byte count are those of Decode for any input at all, sizes summed modulo 2^64 as in the code |
| Channel.Ts2021Upgrade.WriteRaw | components/tailscale/ts2021_upgrade.cpp:540-602 | True exactly when the whole frame went out; otherwise only a proper prefix of it did |
| Channel.Ts2021Upgrade.ReadRaw | components/tailscale/ts2021_upgrade.cpp:604-712 | Result, buffer and what is left of the connection are those of the reading function, for any cuts; nothing is written |
| Transport.RecordOpens | components/tailscale/ts2021_transport.cpp:242-346 | The 16-bit record length never truncates, and opening a sealed record gives the payload and the next cipher state |
| Transport.RecordBytes | components/tailscale/ts2021_transport.cpp:320-346 | Type 4, two bytes of length with the higher first, then the ciphertext |
| Transport.ReadWholeFrame | components/tailscale/ts2021_upgrade.cpp:604-712 | If buffered and coming bytes start with a frame of at least one byte, then, however they are cut, a read returns its payload and leaves exactly the rest, or, when an empty read or a payload over 8192 bytes comes in between, leaves the bytes as they are |
| Transport.EndToEnd | components/tailscale/ts2021_transport.cpp:320-404 | With the ciphers in step any run of sends of 1 to 8173 bytes, cut into any chunks with any pauses, is delivered as the same payloads in the same order |
| Transport.DeliveredExactly | components/tailscale/ts2021_transport.cpp:320-404 | What is delivered is exactly the payloads in front of the first that is too long, in order and unchanged |
| Transport.DeliveredIff | components/tailscale/ts2021_upgrade.cpp:206-212 | The bound is exact for the whole run: all that was sent is delivered if and only if no payload is longer than that |
| Transport.ReadStuck | components/tailscale/ts2021_upgrade.cpp:206-212 | Behind a frame over 8192 bytes nothing is ever delivered, however often one reads |
| TransportState.SessionEndToEnd | components/tailscale/ts2021_transport.cpp:51-225 | From handshake to data: the server reads the initiation with version 1 and then its message, the client accepts the answer, and then every run of sends in either direction, each frame masked or not, arrives intact |
| TransportState.SessionReaches | components/tailscale/ts2021_transport.cpp:51-225 | And nothing of it fails: with keys, PSK, nonces and room for a pattern of two messages, the client builds, the server answers, the client accepts, and both can split |
| TransportState.InitiationReads | components/tailscale/ts2021_transport.cpp:96-107 | A reader of the initiation, byte by byte with the higher byte first, finds version 1 and the message whatever follows, and takes nothing of a proper prefix |
| TransportState.BuildReads | components/tailscale/ts2021_transport.cpp:51-134 | What the client builds is read as version 1 and one message of at most 512 bytes, with nothing behind |
| TransportState.NoiseSession.SplitTransport | components/tailscale/noise_session.cpp:222-280 | Succeeds exactly when the handshake is ready and stores the ciphers of the split in the right order |
| TransportState.Ts2021Transport.BeginHandshake | components/tailscale/ts2021_transport.cpp:40-49 | The stage becomes client-init exactly when the session has a handshake, and failed otherwise |
| TransportState.Ts2021Transport.BuildHandshakeMessage | components/tailscale/ts2021_transport.cpp:51-134 | Only in client-init: builds the five-byte header and the message and moves to the next stage, or to failed |
| TransportState.Ts2021Transport.AcceptHandshakeMessage | components/tailscale/ts2021_transport.cpp:136-225 | Only while awaiting the answer: checks the frame, reads the message, splits if ready; anything malformed makes the transport failed |
| TransportState.Ts2021Transport.EncryptPayload | components/tailscale/ts2021_transport.cpp:242-272 | Counted before it is known to succeed; a refusal makes the transport failed |
| TransportState.Ts2021Transport.DecryptPayload | components/tailscale/ts2021_transport.cpp:274-318 | Counted only once it succeeded; a bad MAC makes the transport failed and leaves the cipher where it was |
| TransportState.Ts2021Transport.SendPlaintext | components/tailscale/ts2021_transport.cpp:320-346 | True exactly when the record, framed once upgraded, is on the wire whole; the receiving side is untouched |
| TransportState.Ts2021Transport.ReceivePlaintext | components/tailscale/ts2021_transport.cpp:348-404 | Result, stage, buffer and cipher are those of the receiving function that the end-to-end theorem is about |
| JsonStream.NodeExtracted | components/tailscale/json_stream_parser.h:39-182 | For any JSON object text whose first Node member is an object, cut into any pieces: extraction completes exactly when the member's closing brace has arrived, and the output is that member alone, whatever nested values, strings or skipped DERPMap come before and whatever follows |
| JsonStream.CompletesIffObject | components/tailscale/json_stream_parser.h:140-161 | The end of the value is where extraction completes if and only if the value is an object |
| JsonStream.NodeAbsent | components/tailscale/json_stream_parser.h:101-131 | Without such a member nothing is captured or completed |
| JsonStream.EscapedNameComesFirst | components/tailscale/json_stream_parser.h:43-75 | The condition on escapes cannot be dropped: an earlier name that reads Node once its escapes are lost is extracted instead |
| JsonStream.PiecesDoNotMatter | components/tailscale/json_stream_parser.h:39-182 | Feeding pieces one after the other is feeding their concatenation |
| JsonStream.FeedNested | components/tailscale/json_stream_parser.h:77-179 | Inside a capture or a skipped object any JSON value passes through unchanged in state |
| JsonStream.SkipValue | components/tailscale/json_stream_parser.h:77-179 | At the top level any value, arrays with objects in them included, brings the parser back between members |
| JsonStream.JsonStreamParser.FeedData | components/tailscale/json_stream_parser.h:39-182 | The loop over the characters, with its fixed field-name buffer and its output array, is Feed; on completion the output is terminated |
| JsonStream.JsonStreamParser.OneChar | components/tailscale/json_stream_parser.h:43-178 | One character through the switch is Step |
| JsonStream.JsonStreamParser.NameIs | components/tailscale/json_stream_parser.h:104-121 | strcmp against the buffer compares what is before its first NUL |
| JsonStream.JsonStreamParser.Reset | components/tailscale/json_stream_parser.h:24-35 | Back to the start, from any state |
| Completion.ObjectComplete | components/tailscale/http2_session.cpp:826-891 | A whole object with blanks after it is recognised if and only if its last brace lies past the first thousand bytes, or the buffer has a hundred bytes and the brace is among the last hundred |
| Completion.CompleteIffHundred | components/tailscale/http2_session.cpp:877-891 | Without blanks: if and only if it has at least a hundred bytes, because an unsigned difference wraps below that |
| Completion.PrefixIncomplete | components/tailscale/http2_session.cpp:826-891 | No proper prefix of an object is taken for a whole one |
| Completion.PrefixedComplete | components/tailscale/http2_session.cpp:762-784 | Behind a four-byte length: exactly when the object is whole and has 96 bytes, unless the length's first byte is an opening brace |
| Completion.ReadFrom | components/tailscale/http2_session.cpp:762-784 | A length whose first byte is an opening brace is read as text, and does no more than set the state in which the rest is read: exact for any such length and any text, a last backslash included |
| Completion.ReadAsText | components/tailscale/http2_session.cpp:762-784 | If those bytes end outside strings, they do no more than lift the depth: a buffer is recognised exactly when the text alone closes to the opposite depth |
| Completion.BraceLengthIff | components/tailscale/http2_session.cpp:826-891 | For an object behind such bytes, cut anywhere: recognised if and only if they leave the depth at zero, it is whole, and it has 96 bytes |
| Completion.BraceLengthBelow | components/tailscale/http2_session.cpp:826-891 | If they leave it below zero, the whole object is recognised if and only if a brace inside it that closes to that many open ones has a window of 99 blanks behind it past the first thousand bytes |
| Completion.StrayBraceCloses | components/tailscale/http2_session.cpp:762-784 | A witness: length 32123 is such a length, and every object of that length is recognised |
| Completion.QuoteLengthIff | components/tailscale/http2_session.cpp:826-891 | If the bytes end inside a string, as for length 8827, the whole object is recognised if and only if it has a closing brace past the first thousand bytes that closes everything when inside and outside of strings are exchanged, with nothing but blanks in the window behind it |
| Completion.QuoteLengthNeedsBrace | components/tailscale/http2_session.cpp:826-891 | Of such a text, a part of it included, nothing is recognised unless it has a closing brace within one of its strings |
| Completion.BraceLengthNeverCompletes | components/tailscale/http2_session.cpp:762-784 | With no quote, backslash or brace among the other bytes of such a length, no part of an object and not even the whole is ever recognised |
| Completion.ShortBraceLengthNeverCompletes | components/tailscale/http2_session.cpp:762-784 | So it is for every such length below 8704 |
| Completion.HasCompleteJson | components/tailscale/http2_session.cpp:732-892 | The scanner is the predicate Complete, for any buffer |
| Completion.ScanJson | components/tailscale/http2_session.cpp:826-891 | The loop with its early exits finds exactly what the string-aware depth says |
| Completion.EndsWithBrace | components/tailscale/http2_session.cpp:877-891 | The backward loop, wrapping bound included |
| Hpack.StrRoundTrip | components/tailscale/http2_session.cpp:901-916 | Decoding by section 5 of RFC 7541 gives back every string and its length, whatever follows |
| Hpack.BlockRoundTrip | components/tailscale/http2_session.cpp:894-899 | Concatenated literal headers decode to the list they were made from, so no two lists share a block |
| Hpack.StatusAgrees | components/tailscale/http2_session.cpp:918-958 | The reader finds the status of any headers whose names and values are shorter than 127 bytes up to and including the first status; what follows it does not matter |
| Hpack.StatusReads | components/tailscale/http2_session.cpp:918-958 | Behind short headers a status of any length reads as the number at the start of what is seen of it: the whole value, or, from 127 bytes, 127 bytes that start with the further bytes of its length |
| Hpack.LongStatusIff | components/tailscale/http2_session.cpp:918-958 | A three-digit status of 127 bytes or more is read right if and only if its length less 127 is 9 to 13, 32, 43 or 48, the codes of blanks, of a plus sign and of the digit zero |
| Hpack.LongStatusReadsZero | components/tailscale/http2_session.cpp:918-958 | A status of exactly 127 bytes reads as zero |
| HpackFields.FieldsRoundTrip | components/tailscale/http2_session.cpp:918-958 | Indexed fields of the static table and literals in all forms of section 6 of RFC 7541 come back from their bytes as the standard reads them |
| HpackFields.StatusIff | components/tailscale/http2_session.cpp:918-958 | Behind fields that are no status, a status in any of these forms is read right exactly when it is entry 8 or a literal without indexing that has a new name, or when what follows happens to be read as the same number |
| HpackFields.IndexedIff | components/tailscale/http2_session.cpp:922-929 | A status that stands in an indexed field and nowhere else is read right if and only if it is 200 |
| HpackFields.NotFoundUnseen | components/tailscale/http2_session.cpp:922-929 | A witness: the byte 0x8D, a 404, reads as none |
| HpackFields.FoundUnseen | components/tailscale/http2_session.cpp:930-958 | Another: the 302 of Appendix C.5.1 of RFC 7541 reads as none |
| Hpack.EncodeStringLiteral | components/tailscale/http2_session.cpp:901-916 | The loop ends and appends the literal of section 5.2 of RFC 7541 |
| Hpack.DecodeStatusHeader | components/tailscale/http2_session.cpp:918-958 | Skips indexed fields other than 8 and reads literals as Status does, for any block; what that means is stated by Hpack.StatusReads, HpackFields.StatusIff and HpackFields.IndexedIff |
| Http2.FrontOfSerialised | components/tailscale/http2_session.cpp:552-582 | A serialised frame at the front of any bytes is read back as the same frame, as section 4.1 of RFC 7540 lays it out |
| Http2.ReadConserves | components/tailscale/http2_session.cpp:609-699 | With the buffer at most 32768 bytes on entry, a read loses and reorders nothing: bytes before are the frame taken, the buffer and the bytes to come; a frame returned was at the front |
| Http2.ReadConservesIff | components/tailscale/http2_session.cpp:609-699 | The limit is exact: every byte is accounted for after a read if and only if the buffer was at most 32768 bytes before it |
| Http2.FramesInOrder | components/tailscale/http2_session.cpp:609-730 | Whatever frames the other side serialises and however they are cut, reads return them in order, a prefix of those sent, as long as the buffer is never over its limit on entry; the bytes that come in are those of the frames returned and then those left in the buffer at the end |
| Http2.FramesLeft | components/tailscale/http2_session.cpp:609-730 | For any cuts: the frames a run leaves behind are exactly those whose bytes its final buffer holds, and all arrive if and only if it ends empty |
| Http2.AlignedFramesArrive | components/tailscale/http2_session.cpp:609-730 | If messages do not cross frame boundaries, every frame arrives and the limit is never met |
| Http2.BufferedFrameWaits | components/tailscale/http2_session.cpp:619-627 | Whatever is to come, a whole frame at the front of a buffer within its limit is returned by a read if and only if the next message is there and not empty; then it is that frame, and exactly one message has been taken |
| Http2.BufferThrownAway | components/tailscale/http2_session.cpp:610-617 | Over the limit a read behaves as if nothing had been buffered |
| Http2Body.FilterDelivers | components/tailscale/http2_session.cpp:333-404 | Through any division into DATA frames that leaves the length and the byte behind it in one frame, the body of a filtered response is complete from the frame that brings the Node object's closing brace, and is that member, clipped to the buffer |
| Http2Body.FilterIs | components/tailscale/http2_session.cpp:333-404 | Whatever the frames hold and however they are divided: without a length in front of any of them a filtered body stays empty; otherwise it is what the extractor makes of the text behind the first length recognised, complete exactly when the extractor is done |
| Http2Body.FromFirst | components/tailscale/http2_session.cpp:337-353 | That text is the concatenation of the frames from the first that looks like a length and a brace, less four bytes |
| Http2Body.TogetherIff | components/tailscale/http2_session.cpp:337-353 | The length of a response is recognised where it stands if and only if it does not start with a brace and the first frame that holds anything has at least five bytes |
| Http2Body.SplitLengthDiscarded | components/tailscale/http2_session.cpp:337-353 | The failing input: a length in a frame of its own and a text in the next leave a filtered body as if nothing had come, whatever the text |
| Http2Body.FullDelivers | components/tailscale/http2_session.cpp:333-404 | With or without a length in front, the length in one frame with the byte behind it: an unfiltered body is complete at exactly the frame that completes the object, for objects of 100 to 65535 bytes; a longer one is clipped and never complete, a shorter one is never complete |
| Http2Body.FullIs | components/tailscale/http2_session.cpp:333-404 | Whatever the frames hold and however they are divided: the buffer holds what came, clipped, and less the length if that was recognised; the body is complete if and only if the detector recognised the buffer after one of the frames |
| Http2Body.SplitLengthBuffered | components/tailscale/http2_session.cpp:333-404 | With the length cut off from the object it is buffered too, and the body is complete at the frame that completes the object, from 96 bytes on and as long as both fit |
| Http2Body.BraceLengthBuffered | components/tailscale/http2_session.cpp:333-404 | So is a length that starts with a brace, wherever it is cut; if its bytes end outside strings at a depth that is not below zero, the body is completed under the same conditions if and only if that depth is zero |
| Http2Body.FilterNeedsPrefix | components/tailscale/http2_session.cpp:337-353 | Filtering starts only at a frame with a length in front; until then everything is discarded |
| Http2Session.FlowConserved | components/tailscale/http2_session.cpp:412-449 | A run that sends what it owes hands back, on the stream and on the connection, exactly the DATA bytes it took, and never a zero increment |
| Http2Session.OwedAddsUp | components/tailscale/http2_session.cpp:412-449 | The increments sum to the payload bytes on either stream number |
| Http2Session.Http2Session.ReadFrame | components/tailscale/http2_session.cpp:609-699 | Buffer, frame and messages left are those of ReadNext; received bytes are erased frames and buffer, unless the buffer was thrown away |
| Http2Session.Http2Session.ReadPayload | components/tailscale/http2_session.cpp:650-699 | With the nine header bytes there, reads on until the payload is; a DATA payload is left in the buffer for its reader, any other frame is erased |
| Http2Session.Http2Session.PullBytes | components/tailscale/http2_session.cpp:701-730 | Appends the next message, or refuses over the limit or at an empty read |
| Http2Session.Http2Session.SendFrame | components/tailscale/http2_session.cpp:552-582 | What goes to the transport is the serialised frame, whether the send succeeds or not |
| Http2Session.Http2Session.SendInitialSettings | components/tailscale/http2_session.cpp:89-116 | Sends one SETTINGS frame on stream 0 that turns push off and limits the frame size, and nothing else |
| Http2Session.Http2Session.SendSettingsAck | components/tailscale/http2_session.cpp:592-607 | Acknowledges once only |
| Http2Session.Http2Session.ProcessControlFrames | components/tailscale/http2_session.cpp:118-179 | Reads one frame and no more: settings of the server are acknowledged, anything else fails; succeeds if and only if they came and the acknowledgement is out; received bytes are conserved |
| Http2Session.Http2Session.AbsorbPayload | components/tailscale/http2_session.cpp:333-404 | One DATA payload through the filter or into the buffer is Absorb |
| Http2Session.Http2Session.PostJson | components/tailscale/http2_session.cpp:181-550 | Succeeds if and only if the request is accepted and, among the frames that successive reads return, one ends the stream or completes the body before one is for another stream, a GOAWAY, settings on a stream, or settings whose acknowledgement is refused; what is sent behind the request is exactly the window updates and the one acknowledgement for the frames looked at. Received bytes are conserved, no earlier frame had completed the body, the response is the absorbed body, and the status is the last one read from the HEADERS frames of this call |
| Http2Post.Decides | components/tailscale/http2_session.cpp:277-549 | A call that has let some frames pass succeeds with the next if that ends the stream or completes the body, fails if that spoils it or does not come, and otherwise goes on |
| Http2Post.JudgeIs | components/tailscale/http2_session.cpp:277-549 | The switch over the frame comes to just that, from the payloads and sends of the frames before it |
| Http2Post.JudgeNextIs | components/tailscale/http2_session.cpp:977-1113 | The same for a further message |
| Http2Post.ArrivingInOrder | components/tailscale/http2_session.cpp:609-699 | The frames that a call sees are the first of those the other side sent, in order |
| Http2Post.SettingsAckBytes | components/tailscale/http2_session.cpp:592-607 | An acknowledgement is nine bytes, as section 6.5 of RFC 7540 has it |
| Http2Post.WindowUpdateBytes | components/tailscale/http2_session.cpp:412-449 | A window update names its stream and its increment in four bytes each, the highest first (section 6.9) |
| Http2Session.RequestReads | components/tailscale/http2_session.cpp:202-268 | What a server reads in a request: POST, scheme, authority and path as given, a JSON text and its decimal length, in HEADERS and DATA that ends the stream |
| Http2Session.Http2Session.ReadNextMessage | components/tailscale/http2_session.cpp:960-1113 | Succeeds if and only if among the frames of so many reads one completes a message before one for this stream ends it, is a GOAWAY or settings on a stream, or is refused its acknowledgement; frames for other streams are passed over. The same ledger; no earlier frame had completed the message; all that is sent is the one acknowledgement, and no window is handed back |
| Http2Session.Http2Session.SendDataOnStream | components/tailscale/http2_session.cpp:1115-1146 | One DATA frame without END_STREAM, the text behind its length in four bytes, most significant first |
| Names.ParseIffPrint | components/tailscale/noise/src/protocol/names.c:590-762 | A name parses to an identifier if and only if the identifier is well formed and prints as that name, for any lawful table: both round trips in one |
| Names.ComponentName | components/tailscale/noise/src/protocol/names.c:590-623 | Noise_IK_25519_ChaChaPoly_BLAKE2s parses to the identifiers of noise/include/noise/protocol/constants.h |
| Names.TableIsLawful | components/tailscale/noise/src/protocol/names.c:56-125 | The table of this build is lawful: no name holds a separator, no two of a category are alike |
| Names.LookupsInvert | components/tailscale/noise/src/protocol/names.c:148-198 | Name to identifier and identifier to name undo each other |
| Names.PatternIff | components/tailscale/noise/src/protocol/names.c:227-314 | A pattern field parses to a pattern and modifiers if and only if it is their text |
| Names.NameListToIds | components/tailscale/noise/src/protocol/names.c:227-314 | The cursor loop is the list parser: identifiers in order, -1 for an unknown name, -2 for one too many, and the array never overrun |
| Names.ParseField | components/tailscale/noise/src/protocol/names.c:426-463 | One field: its identifier and the position behind its underscore, or a failure that sticks |
| Names.ParseListField | components/tailscale/noise/src/protocol/names.c:481-574 | The same for a list of names |
| Names.ProtocolNameToId | components/tailscale/noise/src/protocol/names.c:590-623 | Parsing by cursors is Parse; a rejected name leaves a cleared identifier |
| Names.FormatField | components/tailscale/noise/src/protocol/names.c:637-669 | Appends a name and its separator if there is room for both, and remembers the first error |
| Names.ProtocolIdToName | components/tailscale/noise/src/protocol/names.c:694-762 | Succeeds if and only if the identifier has a printed form and the buffer holds it and its NUL; then the buffer holds exactly that |
| Salsa.SalsaBlock | components/tailscale/crypto_box_simple.cpp:35-116 | The rounds in place on sixteen words are the Salsa20 core on the key, nonce and counter, stored little-endian at the given place only |
| Salsa.TwentyRounds | components/tailscale/crypto_box_simple.cpp:80-93 | Quarter rounds one after the other in place come to whole column and row rounds at once |
| Salsa.QuarterExamples | components/tailscale/crypto_box_simple.cpp:9-16 | The quarter-round examples of section 3 of the Salsa20 specification with a one in each place |
| Salsa.ColumnsAreRows | components/tailscale/crypto_box_simple.cpp:80-93 | The column round is the row round of the transposed matrix, transposed back (section 5) |
| Salsa.RowsBeginAtDiagonal | components/tailscale/crypto_box_simple.cpp:80-93 | Each row is a quarter round that begins at the diagonal (section 4) |
| Salsa.MatrixBytes | components/tailscale/crypto_box_simple.cpp:41-66 | The bytes of the matrix are the constant in four parts, the key in two between them and the input in the middle (section 8) |
| Salsa.HSalsa20 | components/tailscale/crypto_box_simple.cpp:166-219 | The eight words picked without adding the input, as HSalsa20 is defined |
| Salsa.StreamInto | components/tailscale/crypto_box_simple.cpp:119-152 | Whole blocks and a partial last one are the plain stream of that length from that counter |
| Salsa.XStreamXor | components/tailscale/crypto_box_simple.cpp:223-253 | The message under the XSalsa20 stream |
| Salsa.Skip32 | components/tailscale/crypto_box_simple.cpp:255-283 | For every length, the split keystream is the plain stream from byte 32 on |
| Salsa.WholeParts | components/tailscale/crypto_box_simple.cpp:301-335 | The plain construction on 32 zeros and the message: its first 32 bytes are the authenticator's key, the rest the ciphertext |
| Salsa.BoxEasyAfterNm | components/tailscale/crypto_box_simple.cpp:301-335 | With the split keystream the code makes exactly the box of the plain construction |
| Salsa.BoxOpenEasyAfterNm | components/tailscale/crypto_box_simple.cpp:337-380 | Opens what OpenBox opens, and refuses the rest |
| Salsa.OpensIffBoxed | components/tailscale/crypto_box_simple.cpp:337-380 | A box opens to a message if and only if it is the box of that message |
| Salsa.BoxAgrees | components/tailscale/crypto_box_simple.cpp:285-299 | Both sides derive one key, so what either seals the other opens |
| Salsa.BoxEasy | components/tailscale/crypto_box_simple.cpp:384-412 | A failed key agreement leaves the output untouched; otherwise it is the box |
| Salsa.BoxOpenEasy | components/tailscale/crypto_box_simple.cpp:415-442 | The same for opening |
| Pool.PoolIsSafe | components/tailscale/tailscale.cpp:2524-2792 | Under any interleaving of any number of IO tasks, coming and going, with the main loop: each buffer is in exactly one queue or one hand, no send fails, and each task's packets are handled in arrival order with the bytes they arrived with |
| Pool.Drains | components/tailscale/tailscale.cpp:2734-2792 | As many turns of the main loop as packets wait handle all of them in order and free all their buffers |
| Pool.PacketPublished | components/tailscale/tailscale.cpp:2678-2727 | A packet that arrives while a buffer is free is published behind all others, as it arrived |
| Pool.NothingReceived | components/tailscale/tailscale.cpp:2697-2710 | A task that finds nothing to receive puts its buffer back |
| Pool.ExhaustedIff | components/tailscale/tailscale.cpp:2678-2692 | There is no free buffer if and only if all of them wait or are in hand |
| Pool.StepOwned | components/tailscale/tailscale.cpp:2610-2732 | No single step loses, doubles or invents a buffer or finds a queue full |
| Pool.ReceiveKeeps | components/tailscale/tailscale.cpp:2678-2727 | Writing the buffer it holds, a task overwrites nothing that waits or is being handled |
| Pool.RunKeeps | components/tailscale/tailscale.cpp:2558-2607 | The invariant holds over any run, stops and restarts of tasks included |
| TxPool.TxConserved | components/tailscale/tailscale_netif.cpp:83-192 | Under any interleaving: packets offered while running are those sent, dropped, queued or in flight; what is delivered is a prefix of what was queued, bytes and destination alike |
| TxPool.OfferDropsIff | components/tailscale/tailscale_netif.cpp:144-192 | A packet offered is dropped if and only if it is too large or every buffer is queued or in flight |
| TxPool.PacketSent | components/tailscale/tailscale_netif.cpp:144-192 | From an idle pool a packet that fits is delivered as it was offered, and counted |
| TxPool.TailscaleNetif.LwipOutput | components/tailscale/tailscale_netif.cpp:144-192 | The four results and their counters, in the order of the checks; a queued packet is the concatenation of the chain with its destination |
| TxPool.TailscaleNetif.DriverTransmit | components/tailscale/tailscale_netif.cpp:83-132 | The same for the driver, whose destination is read from the IP header, first byte lowest |
| TxPool.TailscaleNetif.GetPendingTx | components/tailscale/tailscale_netif.cpp:594-617 | Returns the oldest queued packet, byte for byte, and frees its buffer |
| Checksum.ComplementVerifies | components/tailscale/tailscale.cpp:5213-5222 | Adding the complement of a folded sum to the sum folds to all ones, whatever the sum |
| Checksum.FoldIs | components/tailscale/tailscale.cpp:5217-5220 | Folding ends in the remainder modulo 65535, with all ones instead of zero for a sum that is not zero |
| Checksum.CalculateIpChecksum | components/tailscale/tailscale.cpp:5213-5222 | The loop over words with the folding loop is the complement of the folded sum, and 32 bits are enough |
| Checksum.CalculateTcpChecksum | components/tailscale/tailscale.cpp:5224-5255 | The same with the pseudo-header and an odd last byte |
| Checksum.PacketVerifies | components/tailscale/tailscale.cpp:5257-5350 | In every packet built both checks of section 1 of RFC 1071 fold to all ones, odd payloads included |
| Checksum.PacketRoutes | components/tailscale/tailscale.cpp:5268-5310 | Version, length, protocol 6, our address at byte 12 and the peer's at byte 16 |
| Checksum.PseudoIs | components/tailscale/tailscale.cpp:5224-5239 | The pseudo-header is both addresses, a zero, the protocol and the length, as section 3.1 of RFC 793 has it |
| Checksum.BuildPacket | components/tailscale/tailscale.cpp:5257-5350 | The bytes stored one field after the other, each checksum over what is there before it, are the packet of the specification; too long a payload gives none |
| Checksum.ParseRecovers | components/tailscale/tailscale.cpp:5379-5418 | The receiver's parse of such a packet gives back ports, numbers, flags and payload, whatever padding follows |
| Tcp.RunInOrder | components/tailscale/tailscale.cpp:5423-5553 | Over any run of duplicated, reordered or lost segments, and however it ends, the bytes consumed and buffered are a prefix of the peer's stream; while the connection is open the acknowledgement is ISN + 1 + their number modulo 2^32 |
| Tcp.SegmentKeepsOrder | components/tailscale/tailscale.cpp:5423-5553 | One segment keeps the order. What has been received afterwards is exactly what was there and the segment's data, taken if and only if it is the next and the connection is, or is just being, established; a close, which comes exactly with a FIN that is bare, or whose data is not turned away, takes off only what the socket leaves in the buffer |
| Tcp.CloseLosesNothingIff | components/tailscale/tailscale.cpp:5526-5553 | When the FIN behind the last byte closes the connection, the whole stream has reached the socket if and only if the FIN's place is just behind what has been received, its own data included, and the socket takes all that is left at the close |
| Tcp.FinAcknowledgedIff | components/tailscale/tailscale.cpp:5526-5553 | A FIN in its place is acknowledged if and only if it comes without data |
| Tcp.EarlyFinAcknowledgesAll | components/tailscale/tailscale.cpp:5526-5553 | A bare FIN behind the last byte of a stream of which bytes are missing closes the connection, and acknowledges every missing byte if and only if its number, taken as an integer, is at least the one expected (or comes to the same a full round ahead); without a wrap in between it always is |
| Tcp.BareFinNumber | components/tailscale/tailscale.cpp:5526-5553 | The place up to which a bare FIN at any place makes the connection acknowledge, numbers wrapping included: behind the FIN if its number is at least the one expected, and as before otherwise |
| Tcp.BareFinAcknowledgesIff | components/tailscale/tailscale.cpp:5526-5553 | What is acknowledged afterwards is what has been received, with or without the FIN, if and only if the FIN's number is below the one expected, equal to it, or the one before it modulo 2^32 |
| Tcp.UnwrappedFinIff | components/tailscale/tailscale.cpp:5526-5553 | As long as no number wraps: a bare FIN acknowledges too much if and only if it is ahead of a byte not received |
| Tcp.ThousandLost | components/tailscale/tailscale.cpp:5526-5553 | A witness: a thousand bytes not received, number 1002 acknowledged |
| Tcp.ThousandKept | components/tailscale/tailscale.cpp:5526-5553 | A witness for the wrap: the same FIN numbered 999 behind 2^32 - 1 leaves the acknowledgement alone |
| Tcp.RepeatedSynIff | components/tailscale/tailscale.cpp:5426-5457 | A repeated SYN keeps the order if and only if its number is the one before the byte expected; it always bumps seq again |
| Tcp.OpeningInOrder | components/tailscale/tailscale.cpp:5431-5457 | A new connection starts in order with the number that opened it |
| Tcp.TableAlwaysOk | components/tailscale/tailscale.cpp:5423-5567 | Over any run of packets there are at most four connections and no two open ones have the same address and port |
| Tcp.HandleKeeps | components/tailscale/tailscale.cpp:5423-5567 | One packet keeps that |
| Tcp.TcpService.FindConnection | components/tailscale/tailscale.cpp:5204-5211 | Returns the first open connection with that address and port, or the table's length |
| Tcp.TcpService.HandleTcpPacket | components/tailscale/tailscale.cpp:5423-5567 | Table and packets sent become those of Handle |
| TcpReplies.AnsweredAs | components/tailscale/tailscale.cpp:5423-5553 | What a segment is answered with, in terms of its place in the peer's stream: a SYN-ACK, an ACK for data below the number expected, a FIN-ACK, or nothing, with the ends, the sequence number and the acknowledgement of each |
| TcpReplies.RunAnswered | components/tailscale/tailscale.cpp:5423-5553 | So is each segment of any run of duplicated, reordered or lost ones, with one more in the sequence number for each opening before it |
| TcpReplies.HandleReturns | components/tailscale/tailscale.cpp:5312-5315 | Whatever is sent for a packet goes to the address and port it came from, from the port the connection was opened on, which is the packet's own if and only if the two are the same; without a connection it is a SYN-ACK for an opening |
| TcpReplies.OtherPortTaken | components/tailscale/tailscale.cpp:5204-5211 | A witness: a segment for port 22 is taken by the connection of its peer to port 80 |
| TcpReplies.AllGoesBack | components/tailscale/tailscale.cpp:5423-5567 | Over any run of packets every packet sent goes to an end that has opened a connection, from the port it opened it on |
| Lru.Activator.Activate | components/tailscale/tailscale.cpp:3606-3649 | Succeeds if and only if the peer is active already, or its key is good and there is room or someone to evict; afterwards at most N are active, the target among them, and at most one other is gone, one idle longest |
| Lru.Activator.FindLru | components/tailscale/tailscale.cpp:3667-3684 | Finds an active peer with the least activity time below UINT32_MAX, or none exactly when there is none |
| Lru.SlotsCount | components/tailscale/wireguard_device_manager.cpp:72-149 | With slots and map matched one to one there are never more peers than slots, and a free slot if and only if there are fewer |
| Lru.DeviceManager.AddPeer | components/tailscale/wireguard_device_manager.cpp:72-126 | Succeeds if and only if the peer is there already, or a slot is free and the key is accepted; the matching is kept, every other peer keeps its slot, and a failure frees the slot again |
| Lru.DeviceManager.RemovePeer | components/tailscale/wireguard_device_manager.cpp:128-149 | Takes the peer out of the map and frees its slot, and only that |

## Left out

- Fallback patterns and hybrid forward secrecy (tokens F and FF, noise_handshakestate_fallback and _fallback_to).
- Fixed ephemeral keys for test vectors, the hook that asks for a PSK, and failure of the random generator: a fresh private key is a parameter.
- Null object pointers: whether a key object exists is a flag of the model (`Presence`); calls with a null handshake, cipher or buffer are not modelled.
- Bodies of Curve25519, ChaCha20-Poly1305, BLAKE2s and Poly1305: functions with the laws stated in `LawfulNoise`, `LawfulCurve` and `LawfulMac`.
- Wiping of secrets after use: the values are abandoned in the model.
- Agreement.HandshakeAgrees: the condition on the token list is sufficient and not necessary (Agreement.UnsetStaticIsSent); for a list outside it agreement depends on which keys the caller happens to have loaded, of which Agreement.ReadNeedsPrivateKeys states the reading side.
- Names.ProtocolIdToName: the array holds the algorithms of this build only; noise_ids_to_name_list, the printer of bare lists, is not modelled.
- Names.ProtocolNameToId: a null string and a length that differs from the string's are not modelled.
- Channel.Ts2021Upgrade.DecodeFrame: for a close frame whose declared length wraps the sum of sizes, the code also logs a reason text of that length; what that does is not modelled.
- Channel.Ts2021Upgrade.ReadRaw: timeouts, would-block retries and closing are folded into the script of what each read of the connection returns.
- Connecting: DNS, TLS, the HTTP upgrade request, sockets, the watchdog and logging.
- The http2_* wrappers of the transport, which only forward.
- JsonStream.NodeExtracted: the text holds no NUL character, names before Node have no escapes, and of two members named Node the first counts; the output is stated before it is clipped to the capacity, which JsonStream.JsonStreamParser.FeedData accounts for.
- Completion.HasCompleteJson: MessagePack is recognised by its first byte as in the code; its texts are outside the grammar.
- HandshakeState.HandshakeState.SplitTransport: always hands out both ciphers; a null send or receive argument (handshakestate.c:1773-1800), which asks for one of them only, is not modelled.
- Http2Session.Http2Session.PostJson: the status is 0 for a call that fails while sending its request, where the code leaves the caller's variable untouched (it is cleared at http2_session.cpp:272); the branch on response_buffer_used_ (http2_session.cpp:281) is absent, since nothing ever sets it; a status outside 16 bits is truncated as the cast does, and atoi beyond int is undefined in C.
- Http2Session.Http2Session.ReadNextMessage: the clock is a number of turns given by the caller.
- Hpack.DecodeStatusHeader: Huffman strings and the dynamic table, which the code does not support either.
- Salsa.BoxEasy: the error returns of libsodium's scalar multiplication are one failure.
- Transcript.HandshakeIs: a cipher whose keys are longer than 32 bytes under a 64-byte hash, which the library does not have, is excluded.
- HpackFields.StatusIff: entries of the dynamic table and changes of its size are not fields of the model.
- Pool.PoolIsSafe: a packet that finds no free buffer is read and dropped, and is not in the history; one queue operation or one read into a buffer is one atomic step; allocation failure shrinks the set of buffers; the two queues are created once.
- TxPool.TxConserved: counters are incremented in one step with the queue operation beside them, and start and stop do not flush the queue.
- TxPool.TailscaleNetif.LwipOutput: the object runs one call at a time; interleavings are in TxPool.TxConserved.
- Checksum.ParseRecovers: a packet whose IP length is smaller than its headers gives nothing, where the C difference would wrap.
- Checksum.Parse: a buffer shorter than the IP length gives nothing, where the code (tailscale.cpp:5407-5408) makes no such comparison and reads on.
- Tcp.CloseLosesNothingIff: stated for a FIN that the peer sends behind its last byte.
- Tcp.TcpService.HandleTcpPacket: what a bound socket's callback consumes is a number chosen by the environment; send_tcp_data and close_tcp_connection are not modelled.
- Lru.Activator.Activate: the limit and the number of device slots are one number N; the handshake that follows activation is not modelled.
- receiver_to_peer_, the STUN, DERP and NAT-PMP clients, the map response scanners, the status pages and the ESPHome code generation.
