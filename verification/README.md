# LiveBooster C library: verified model

This project models the core of the LiveBooster C library, which connects a device over a GSM
modem to Live Objects, and proves what that code is there for.

* **JSON tokenizer** (`JsmnSpec`, `JsmnParser`, `JsmnInvariants`, `JsmnLaws`, `JsmnResume`, `JsonTree`).
  A one-pass parser without a stack: the open tokens and the index of the superior do its work.
  The class `Parser` is the code, loop by loop; `JsmnSpec.Run` is what it computes. On JSON trees
  the result is the pre-order listing; on arbitrary bytes it keeps a nesting invariant and
  conserves child counts, and no character is skipped; resumed calls equal one call exactly when no
  word was cut.
* **MD5** (`Md5Spec`, `Md5Stream`, `Md5Vectors`). `Md5Spec.Digest` is RFC 1321 written down once, with
  two values of its test suite; the streaming context with its split counter, kept tail and two
  padding branches computes it for every message and every way of cutting the message.
* **Resource download** (`TransferSpec`, `ResourceRequest`, `ResourceDocument`,
  `ResourceTransfer`, `Downloads`). Requests are decoded from their text; the record, updated by them,
  by cycles and by the user's own reads, never announces success for content whose digest differs,
  and always for content whose digest agrees; the texts that block the record for ever are known
  exactly.
* **MQTT packets** (`Framing`, `PacketReader`, `MqttFields`, `MqttConnect`, `MqttPublish`,
  `MqttSubscribe`, `MqttExamples`). Length field, serializers that write what they announced and never past the
  buffer, deserializers with their exact return codes, round trips, and a non-blocking reader
  that delivers what the blocking one delivers; packets byte by byte as in the standard.
* **MQTT client** (`TopicMatch`, `HandlerTable`, `SessionSpec`, `SessionLaws`, `MqttClient`,
  `ClientReader`). Topic matching by a pointer loop, five handler slots that behave as a map; over
  every run the messages and replies of the packets on the wire, pings exactly when they are due,
  and session flags that tell the truth.
* **Byte stream** (`GsmFifo`, `TcpClient`). A 64-byte ring that is a queue of 63, and a read loop
  that neither loses nor repeats a byte.
* **Configuration messages** (`Numbers`, `JsonBuffer`, `ConfigMessage`, `ConfigDecoder`,
  `ConfigRoundTrip`). The printer appends and strips commas in a fixed buffer; the decoder works
  on the tokenizer's output and writes into the payload. The decoder undoes the printer, and the
  exact exceptions are stated.

`Arith`, `Bytes` and `Slices` hold shared facts about division, buffers and subsequences,
`JsonTokens` and `JsonShapes` about tokens and printed documents.

Transport, modem, clock and the application's callbacks are inputs of the methods: a list of
answers, an `Outside` for a cycle, a `Round` of the read loop, a `Cycle` of the download. Bytes are
0..255 in the MQTT part, bit vectors in the MD5 part and characters in the JSON part.

Places where the code differs from what one would expect, all kept as they are, each with its exact
condition and an input:

* Several MQTT deserializers return 1 for some packets they gave up on, those with a length field of
  one byte (`MqttPublish.Deserialize`, `MqttPublish.DeserializeAck`, `MqttSubscribe.Deserialize`,
  `MqttConnect.DeserializeConnack`; `MqttPublish.EmptyPublishReturnsOne` and its neighbours). So a
  CONNACK without a return code counts as accepted (`SessionSpec.EmptyConnackAccepts`).
* `#` does not match the parent level, and wildcards do not match empty levels
  (`TopicMatch.MatchesIsStandardOutsideBlindSpots`, `TopicMatch.HashMissesParent`,
  `TopicMatch.PlusMissesEmptyLevel`).
* Abbreviated and extended protocol names in CONNECT and abbreviated type names in a configuration
  request are accepted (`MqttConnect.VersionAcceptedExactlyIf`, `MqttConnect.WrongNamesAccepted`,
  `ConfigDecoder.TypeAcceptedExactlyIf`, `ConfigDecoder.AbbreviationAccepted`).
* A resource request that names no resource of the user is not rejected: it is answered with 0, or
  with an error if a guard turns it back, and blocks every later transfer, unless the user is asked
  and refuses (`ResourceDocument.BlocksExactlyIf`, `ResourceDocument.UnknownResourceBlocks`,
  `ResourceDocument.EarlyReturnBlocks`, `ResourceRequest.NeverInvalidResource`).
* A configuration parameter named `cid` makes the whole request unreadable
  (`ConfigRoundTrip.DecodeEncode`, `ConfigRoundTrip.CidParameterRefused`).
* `MQTTSerialize_connack` writes four bytes where it has asked for two
  (`MqttConnect.SerializeConnack`).

## Model

| member | source | states |
|---|---|---|
| JsmnParser.Parser.constructor | LiveBooster-C-Library/src/jsonParser/jsmn.c:309-313 | the initial state: nothing read, no token, no superior |
| JsmnParser.Parser.AllocToken | LiveBooster-C-Library/src/jsonParser/jsmn.c:6-19 | a fresh cleared token, or -1 with nothing changed when the array is full |
| JsmnParser.Parser.ParsePrimitive | LiveBooster-C-Library/src/jsonParser/jsmn.c:35-79 | stores the maximal run of word characters from the current position; on a bad character or a full array nothing moves, so the call can be repeated |
| JsmnParser.Parser.ParseString | LiveBooster-C-Library/src/jsonParser/jsmn.c:84-146 | stores the span up to the closing quote that escapes and \u sequences do not hide; invalid escape, unfinished string and full array leave the position where it was |
| JsmnParser.Parser.FindOpen | LiveBooster-C-Library/src/jsonParser/jsmn.c:209-228 | the downward search finds the last open token and no other |
| JsmnParser.Parser.OpenBracket | LiveBooster-C-Library/src/jsonParser/jsmn.c:164-181 | a bracket opens one token, adopted by the superior and becoming it, entries behind it untouched |
| JsmnParser.Parser.CloseBracket | LiveBooster-C-Library/src/jsonParser/jsmn.c:182-230 | closes the last open token if the kinds agree and makes the next one below the superior; otherwise an error and no change |
| JsmnParser.Parser.RestoreSuper | LiveBooster-C-Library/src/jsonParser/jsmn.c:243-260 | after a comma the innermost open container is the superior again, however deep the last value was |
| JsmnParser.Parser.Dispatch | LiveBooster-C-Library/src/jsonParser/jsmn.c:162-290 | one trip round the main loop is one step of the stack machine, error cases included |
| JsmnParser.Parser.Parse | LiveBooster-C-Library/src/jsonParser/jsmn.c:151-303 | a whole call leaves tokens, parser and return value of the state machine; no entry past the last token is written; a null array only counts |
| JsonTree.ParseTree | LiveBooster-C-Library/src/jsonParser/jsmn.c:151-303 | for every JSON value tree, any white space and an array with enough room: success, and the tokens are exactly the pre-order listing with kinds, spans and child counts |
| JsonTree.TreeNeeds | LiveBooster-C-Library/src/jsonParser/jsmn.c:64-67 | the counting pass announces exactly the number of tokens a tree takes, and the array is too small exactly when it has fewer |
| JsonTree.RunValue | LiveBooster-C-Library/src/jsonParser/jsmn.c:158-291 | induction step: reading one value anywhere in a text appends its listing, has it counted by its superior and restores the state around it |
| JsonTree.RunMembers | LiveBooster-C-Library/src/jsonParser/jsmn.c:182-258 | induction step: the members of an object make key tokens with one child each, and the closing brace seals the right token |
| JsonTree.ScanBody | LiveBooster-C-Library/src/jsonParser/jsmn.c:84-146 | a well-formed string body, escapes included, is scanned to its own closing quote |
| JsmnInvariants.StepKeepsInv | LiveBooster-C-Library/src/jsonParser/jsmn.c:158-291 | on arbitrary bytes every step keeps: delimited tokens, nested or disjoint spans, increasing starts, open tokens all containers; sizes grow by one exactly when a token is created under a superior |
| JsmnInvariants.RunKeepsInv | LiveBooster-C-Library/src/jsonParser/jsmn.c:151-303 | the invariant after any call, and conservation: the sizes add up to the tokens created while there was a superior |
| JsmnInvariants.RunKeepsEnded | LiveBooster-C-Library/src/jsonParser/jsmn.c:44-61 | every word ends where the text read so far ends or goes on with a character that ends words |
| JsmnInvariants.SuccessIsForest | LiveBooster-C-Library/src/jsonParser/jsmn.c:293-302 | success on any text leaves a forest of closed tokens, each cut out by its own delimiters |
| JsmnInvariants.RunKeepsLast | LiveBooster-C-Library/src/jsonParser/jsmn.c:164-181 | a token with a child is never the last one, so looking at the entry behind a key stays within the array |
| JsmnResume.ResumeFrom | LiveBooster-C-Library/src/jsonParser/jsmn.c:151-171 | calling again with a longer text and a larger array equals one call on the whole text if and only if the first call did not end inside an unquoted word |
| JsmnResume.FeedThenRun | LiveBooster-C-Library/src/jsonParser/jsmn.c:151-171 | the same for any number of resumptions, after any mixture of partial texts, full arrays and errors |
| JsmnResume.FeedKeepsInv | LiveBooster-C-Library/src/jsonParser/jsmn.c:151-303 | the invariant holds in every state any sequence of calls on growing texts and arrays can reach, also when a call ended inside a word |
| JsmnResume.MoreRoom | LiveBooster-C-Library/src/jsonParser/jsmn.c:6-11 | an array that was large enough gives the same outcome when it is larger |
| JsmnResume.CountAgrees | LiveBooster-C-Library/src/jsonParser/jsmn.c:164-168 | if token mode succeeds with n tokens, counting mode returns n |
| JsmnResume.TwoPass | LiveBooster-C-Library/src/jsonParser/jsmn.c:156-184 | for a text that parses: counting gives its number of tokens, every array of that size succeeds with the same result, every smaller one is reported as too small |
| JsmnResume.CountedIsEnough | LiveBooster-C-Library/src/jsonParser/jsmn.c:156-184 | whenever counting mode returns n, token mode with at least n entries never runs out of them, whether or not the text parses |
| JsmnLaws.RunAccounts | LiveBooster-C-Library/src/jsonParser/jsmn.c:158-291 | no character is skipped: on any text, after any call, each character read is white space, a colon or a comma, or opens, closes or lies inside a token -- a bracket in a token of its own kind |
| JsmnLaws.ClosingBrackets | LiveBooster-C-Library/src/jsonParser/jsmn.c:182-230 | every closing bracket that was read outside strings ends a token of its own kind, so one of the wrong kind is refused |
| JsmnLaws.StringEndsExactlyAt | LiveBooster-C-Library/src/jsonParser/jsmn.c:84-146 | a string ends at a quote if and only if what is before it is a string body, escapes included |
| JsmnLaws.StringRefusedExactlyIf | LiveBooster-C-Library/src/jsonParser/jsmn.c:104-138 | a string is refused if and only if a wrong escape follows a part that is right; otherwise it is complete or may still be completed |
| JsmnLaws.WordEndsExactlyAt | LiveBooster-C-Library/src/jsonParser/jsmn.c:35-79 | a word ends at a position if and only if it is made of word characters and the text ends there or goes on with a character that ends words; it is refused only for an unprintable character |
| JsmnLaws.CharacterClasses | LiveBooster-C-Library/src/jsonParser/jsmn.c:44-122 | which characters are white space, end words, are printable, are hexadecimal digits and may be escaped |
| JsmnLaws.ReturnCodes | LiveBooster-C-Library/src/jsonParser/jsmn.c:151-303 | -1 for too small an array, -2 for a wrong bracket or escape, -3 for an open bracket or string, otherwise the number of tokens, on the shortest texts |
| JsmnLaws.CountingCodes | LiveBooster-C-Library/src/jsonParser/jsmn.c:151-303 | the same in counting mode, where brackets are not matched |
| Md5Stream.OptimizedSelections | LiveBooster-C-Library/src/liveBooster/liveBoosterPacket/LiveBooster_md5.c:36-39 | the rewritten F and G are the functions of section 3.4 of RFC 1321 on all words |
| Md5Spec.AuxiliaryLaws | LiveBooster-C-Library/src/liveBooster/liveBoosterPacket/LiveBooster_md5.c:36-39 | what the four functions of section 3.4 of RFC 1321 do bit by bit: F and G select, H is a symmetric parity, I takes Y or its complement |
| Md5Spec.WordBytesBack | LiveBooster-C-Library/src/liveBooster/liveBoosterPacket/LiveBooster_md5.c:62-69 | reading a word of a block and writing it gives the same four bytes, low-order byte first |
| Md5Spec.InitialBytes | LiveBooster-C-Library/src/liveBooster/liveBoosterPacket/LiveBooster_md5.c:184-196 | the initial registers are the bytes 01 23 45 67 and so on of section 3.3 |
| Md5Vectors.PaddingIsShortest | LiveBooster-C-Library/src/liveBooster/liveBoosterPacket/LiveBooster_md5.c:233-262 | the padding is the end mark, the fewest zero bytes and the length (section 3.1 of RFC 1321) |
| Md5Vectors.LengthBytesTell | LiveBooster-C-Library/src/liveBooster/liveBoosterPacket/LiveBooster_md5.c:250-258 | the last eight bytes are the bit count mod 2^64, low-order byte first, for messages of any length (section 3.2) |
| Md5Vectors.EmptyDigest | LiveBooster-C-Library/src/liveBooster/liveBoosterPacket/LiveBooster_md5.c:233-280 | the digest of the empty message is d41d8cd98f00b204e9800998ecf8427e (appendix A.5 of RFC 1321), computed operation by operation |
| Md5Vectors.AlphanumericDigest | LiveBooster-C-Library/src/liveBooster/liveBoosterPacket/LiveBooster_md5.c:233-280 | the digest of A-Z, a-z, 0-9, two blocks, is d174ab98d277d9f5a5611c2c9f419d9f (appendix A.5), computed operation by operation |
| Md5Stream.Round1 | LiveBooster-C-Library/src/liveBooster/liveBoosterPacket/LiveBooster_md5.c:96-112 | the 16 unrolled steps are round 1 of RFC 1321 |
| Md5Stream.Round2 | LiveBooster-C-Library/src/liveBooster/liveBoosterPacket/LiveBooster_md5.c:114-130 | the 16 unrolled steps are round 2 |
| Md5Stream.Round3 | LiveBooster-C-Library/src/liveBooster/liveBoosterPacket/LiveBooster_md5.c:132-148 | the 16 unrolled steps are round 3 |
| Md5Stream.Round4 | LiveBooster-C-Library/src/liveBooster/liveBoosterPacket/LiveBooster_md5.c:150-166 | the 16 unrolled steps are round 4 |
| Md5Stream.Context.Init | LiveBooster-C-Library/src/liveBooster/liveBoosterPacket/LiveBooster_md5.c:184-196 | an empty message |
| Md5Stream.Context.Body | LiveBooster-C-Library/src/liveBooster/liveBoosterPacket/LiveBooster_md5.c:77-182 | folds the compression function over all blocks given |
| Md5Stream.Context.Count | LiveBooster-C-Library/src/liveBooster/liveBoosterPacket/LiveBooster_md5.c:203-207 | the two counters stay the byte count mod 2^61, split at 29 bits, for any size |
| Md5Stream.Context.Update | LiveBooster-C-Library/src/liveBooster/liveBoosterPacket/LiveBooster_md5.c:198-231 | any number of bytes at any fill level: registers, kept tail and counters are those of the longer message |
| Md5Stream.Context.MarkEnd | LiveBooster-C-Library/src/liveBooster/liveBoosterPacket/LiveBooster_md5.c:237-248 | the end mark, and an extra block exactly when fewer than eight bytes are left |
| Md5Stream.Context.Finish | LiveBooster-C-Library/src/liveBooster/liveBoosterPacket/LiveBooster_md5.c:237-262 | whichever branch is taken, what has been folded is the message followed by the padding of sections 3.1 and 3.2 |
| Md5Stream.Context.Final | LiveBooster-C-Library/src/liveBooster/liveBoosterPacket/LiveBooster_md5.c:233-280 | the one-shot digest of everything absorbed, however it was cut into updates; `Md5Vectors` shows that this is the digest of RFC 1321 on two of its test values |
| Md5Spec.FoldConcat | LiveBooster-C-Library/src/liveBooster/liveBoosterPacket/LiveBooster_md5.c:77-182 | folding complete blocks one after the other is folding their concatenation |
| Md5Spec.RotateLeftRotates | LiveBooster-C-Library/src/liveBooster/liveBoosterPacket/LiveBooster_md5.c:44-47 | the two shifts of a step are a rotation |
| ResourceTransfer.Downloader.GetResources | LiveBooster-C-Library/src/liveBooster/liveBoosterPacket/LiveBooster_core.c:334-366 | bytes handed over are absorbed by the digest and counted mod 2^32, for the running transfer only; -33 for any other resource |
| ResourceTransfer.Downloader.DigestMatches | LiveBooster-C-Library/src/liveBooster/liveBoosterPacket/LiveBooster_core.c:478-506 | the comparison loop says yes exactly when the digest of all bytes is the announced one |
| ResourceTransfer.Downloader.ProcessGetRsc | LiveBooster-C-Library/src/liveBooster/liveBoosterPacket/LiveBooster_core.c:463-591 | one cycle takes the step of the transfer machine and keeps the record in agreement with what the user has seen; what that step announces, and when, is `Downloads.CompletionIsAnnounced` |
| ResourceTransfer.Downloader.HandleMessage | LiveBooster-C-Library/src/liveBooster/liveBoosterPacket/LiveBooster_msg_decode.c:213-441 | from the text of a message: tokenizer, guards, correlation id, busy guard, record and answer are those of the request the text stands for, for every text |
| ResourceTransfer.Downloader.Fill | LiveBooster-C-Library/src/liveBooster/liveBoosterPacket/LiveBooster_msg_decode.c:259-441 | refused while a transfer is recorded; otherwise the record is filled in place and stays filled at every early return |
| ResourceTransfer.Downloader.FindResource | LiveBooster-C-Library/src/liveBooster/liveBoosterPacket/LiveBooster_msg_decode.c:268-292 | the search over the tokens, which ends at the first unknown name unless a resource was found before |
| ResourceTransfer.Downloader.FieldLoop | LiveBooster-C-Library/src/liveBooster/liveBoosterPacket/LiveBooster_msg_decode.c:299-419 | the field loop with all its guards; it never reads a token outside the array |
| ResourceTransfer.Downloader.MetaField | LiveBooster-C-Library/src/liveBooster/liveBoosterPacket/LiveBooster_msg_decode.c:323-376 | size and digest are stored, a size that is no number turns the request back, other members are passed over |
| ResourceTransfer.Md5FromString | LiveBooster-C-Library/src/liveBooster/liveBoosterPacket/LiveBooster_msg_decode.c:183-208 | the digits are packed two a byte up to the first character that is no digit |
| TransferSpec.EveryRunIsHonest | LiveBooster-C-Library/src/liveBooster/liveBoosterPacket/LiveBooster_core.c:463-591 | over all runs: no transfer starts while another runs, a transfer completes at most once, only at the announced length mod 2^32, and with state 1 exactly when the RFC 1321 digest of all its bytes is the announced one |
| TransferSpec.ProcessHonest | LiveBooster-C-Library/src/liveBooster/liveBoosterPacket/LiveBooster_core.c:463-591 | every cycle keeps that promise, whatever network and callbacks do |
| Downloads.CompletionIsAnnounced | LiveBooster-C-Library/src/liveBooster/liveBoosterPacket/LiveBooster_core.c:463-591 | the other half, over all runs: in a cycle of a connected transfer the user gets every byte asked for; if they complete the announced number (mod 2^32) the last events are the announcement, with state 1 if and only if the digest of all bytes is the announced one, and the end; otherwise nothing is announced, and the transfer ends exactly if the callback failed or gave up |
| Downloads.EveryDownloadCompletes | LiveBooster-C-Library/src/liveBooster/liveBoosterPacket/LiveBooster_core.c:463-591 | from any idle state: an accepted request, any waiting for the connection and any cut of the content into reads and cycles show the user exactly the announcement, the bytes in order, the completion with the state of the digest, and the end; the record is free again |
| Downloads.EveryAnnouncementIsServed | LiveBooster-C-Library/src/liveBooster/liveBoosterPacket/LiveBooster_msg_decode.c:213-441 | the same from the text of the request on, for the first resource of its name |
| Downloads.StartsExactlyIf | LiveBooster-C-Library/src/liveBooster/liveBoosterPacket/LiveBooster_msg_decode.c:259-441 | a request that finds the record free starts a transfer if and only if it has an id and a resource and the user is not asked, accepts or is not reached; the answer is the code of the decoder or of the user |
| Downloads.FetchHandsOver | LiveBooster-C-Library/src/liveBooster/liveBoosterPacket/LiveBooster_core.c:334-366 | the data callback is given every byte it asks for, in order, and none of another resource |
| TransferSpec.BusyRunIsUntouched | LiveBooster-C-Library/src/liveBooster/liveBoosterPacket/LiveBooster_msg_decode.c:259-261 | any number of requests slipped into a run while a transfer is recorded change neither the events of the run nor its final record |
| TransferSpec.BusyIsUntouched | LiveBooster-C-Library/src/liveBooster/liveBoosterPacket/LiveBooster_msg_decode.c:259-261 | each of them is answered "not authorized" if it can be read |
| TransferSpec.OrphanedExactlyIf | LiveBooster-C-Library/src/liveBooster/liveBoosterPacket/LiveBooster_msg_decode.c:263-441 | a free record is left with an id and no resource if and only if the request has an id, names no resource, and the decoder turned back after the id was stored, or the user was not asked, or accepted |
| TransferSpec.OrphanBlocksForEver | LiveBooster-C-Library/src/liveBooster/liveBoosterPacket/LiveBooster_msg_decode.c:259-265 | an id stored without a resource is never cleared: no later cycle or request has any effect |
| TransferSpec.BlocksExactlyOrphans | LiveBooster-C-Library/src/liveBooster/liveBoosterPacket/LiveBooster_core.c:463-591 | conversely every record with a resource is freed by some run: exactly the records with an id and no resource block for ever |
| ResourceRequest.ResourceMissing | LiveBooster-C-Library/src/liveBooster/liveBoosterPacket/LiveBooster_msg_decode.c:267-296 | a readable request lacks a resource if and only if its first key "id" is missing, has no string behind it, or a name the user does not have -- although the search goes on after a resource was found |
| ResourceRequest.NeverInvalidResource | LiveBooster-C-Library/src/liveBooster/liveBoosterPacket/LiveBooster_msg_decode.c:293-296 | the code for an unknown resource is never answered |
| ResourceDocument.HexBack | LiveBooster-C-Library/src/liveBooster/liveBoosterPacket/LiveBooster_msg_decode.c:183-208 | a digest written in 32 hexadecimal digits, in any mixture of cases, is read back |
| ResourceDocument.RequestRead | LiveBooster-C-Library/src/liveBooster/liveBoosterPacket/LiveBooster_msg_decode.c:213-441 | every well-formed request is read as it was meant: id, size, digest and the resource of its name, and no guard turns it back |
| ResourceDocument.BlocksExactlyIf | LiveBooster-C-Library/src/liveBooster/liveBoosterPacket/LiveBooster_msg_decode.c:213-441 | any text blocks a free record for ever if and only if it carries an id, names no resource of the user, and turns the decoder back, or finds no callback, or is accepted |
| ResourceDocument.UnknownResourceBlocks | LiveBooster-C-Library/src/liveBooster/liveBoosterPacket/LiveBooster_msg_decode.c:289-296 | a well-formed request for a resource the user does not have is answered with 0 and blocks the record for ever, unless the user is asked and refuses |
| ResourceDocument.EarlyReturnBlocks | LiveBooster-C-Library/src/liveBooster/liveBoosterPacket/LiveBooster_msg_decode.c:313-317 | the texts {"cid":n,"m":k} are answered with an error and block the record for ever, whatever resources there are |
| ResourceDocument.DocText | LiveBooster-C-Library/src/liveBooster/liveBoosterPacket/LiveBooster_msg_decode.c:213-441 | an example of the text of a request, member by member |
| ResourceRequest.IdTurnsBack | LiveBooster-C-Library/src/liveBooster/liveBoosterPacket/LiveBooster_msg_decode.c:268-292 | an "id" without a string turns the request back: always if it is the first one, and without one the search does not |
| ResourceRequest.MetaTurnsBack | LiveBooster-C-Library/src/liveBooster/liveBoosterPacket/LiveBooster_msg_decode.c:323-376 | one member of "m" turns the request back if and only if it is no key with a string or a size that is no number; size and digest change only under their own names |
| ResourceRequest.LeavesPass | LiveBooster-C-Library/src/liveBooster/liveBoosterPacket/LiveBooster_msg_decode.c:378-415 | other members are passed over if and only if each is a key with a string or a word |
| ResourceRequest.UnreadableTexts | LiveBooster-C-Library/src/liveBooster/liveBoosterPacket/LiveBooster_msg_decode.c:213-258 | no text, an unfinished one and one that is no object are answered with 1, a blank one with 0 |
| Framing.Encode | LiveBooster-C-Library/src/mqttClient/MQTTPacket/MQTTPacket.c:29-45 | writes the seven-bit encoding in place and nothing else |
| Framing.DecodeBuf | LiveBooster-C-Library/src/mqttClient/MQTTPacket/MQTTPacket.c:54-117 | reads a field of at most four bytes: its value and its width |
| Framing.DecodeEncode | LiveBooster-C-Library/src/mqttClient/MQTTPacket/MQTTPacket.c:29-81 | decoding undoes encoding on any continuation, for every number the bytes allowed can hold |
| Framing.EncodingIsShortest | LiveBooster-C-Library/src/mqttClient/MQTTPacket/MQTTPacket.c:29-45 | no field with the same value is shorter (section 2.2.3 of MQTT Version 3.1.1) |
| Framing.EstimateIsSafe | LiveBooster-C-Library/src/mqttClient/MQTTPacket/MQTTPacket.c:84-98 | the buffer estimate is never below the packet size and exceeds it, by one, at exactly four lengths |
| MqttExamples.LengthFields | LiveBooster-C-Library/src/mqttClient/MQTTPacket/MQTTPacket.c:29-45 | the first and last length of each width, byte by byte, as in table 2.4 of section 2.2.3 |
| PacketReader.Read | LiveBooster-C-Library/src/mqttClient/MQTTPacket/MQTTPacket.c:290-316 | the blocking reader: type and canonical image of the packet, exactly its bytes consumed; too long a packet is given up after its length field |
| PacketReader.Reader.DecodeNb | LiveBooster-C-Library/src/mqttClient/MQTTPacket/MQTTPacket.c:324-352 | the length field can be interrupted after every byte and continued |
| PacketReader.Reader.ReadNb | LiveBooster-C-Library/src/mqttClient/MQTTPacket/MQTTPacket.c:362-411 | one call, from any of the three states: call again with progress kept, or the whole packet and state 0; every non-empty answer of the source moves the stream position |
| PacketReader.DeliverNonBlocking | LiveBooster-C-Library/src/mqttClient/MQTTPacket/MQTTPacket.c:362-411 | under every fragmentation of a stream of packets: the same types and buffers, in order, each as soon as its last byte is there, and state 0 at the end |
| PacketReader.DeliverBlocking | LiveBooster-C-Library/src/mqttClient/MQTTPacket/MQTTPacket.c:290-316 | the same stream through the blocking reader gives the same deliveries and ends at the same position |
| ClientReader.DecodePacket | LiveBooster-C-Library/src/mqttClient/MqttClient.c:69-94 | the length field as the client reads it; a failed read or a fifth byte ends it with the value so far |
| ClientReader.ReadPacket | LiveBooster-C-Library/src/mqttClient/MqttClient.c:97-137 | whatever the transport does, a positive result is the type of a whole packet in the buffer; a prompt transport gives the packet sent, or -8 if it does not fit |
| MqttFields.Header | LiveBooster-C-Library/src/mqttClient/MQTTPacket/MQTTPacket.h:42-62 | the four bit fields of the header byte can be read back separately |
| MqttExamples.SubscribeHeader | LiveBooster-C-Library/src/mqttClient/MQTTPacket/MQTTSubscribeClient.c:66-70 | the first byte of SUBSCRIBE is 82 and of UNSUBSCRIBE a2, in general 16 * type + 8 * dup + 2 (sections 3.8.1 and 3.10.1 of MQTT Version 3.1.1) |
| MqttExamples.PublishHeader | LiveBooster-C-Library/src/mqttClient/MQTTPacket/MQTTSerializePublish.c:70-73 | the first byte of PUBLISH is 30 plus 8 * dup, 2 * QoS and retain (section 3.3.1) |
| MqttExamples.AckImages | LiveBooster-C-Library/src/mqttClient/MQTTPacket/MQTTSerializePublish.c:104-127 | PUBACK, PUBREC, PUBREL and PUBCOMP are 40, 50, 62 and 70, then 2, then the id, high byte first (sections 3.4 to 3.7) |
| MqttExamples.EmptyPackets | LiveBooster-C-Library/src/mqttClient/MQTTPacket/MQTTConnectClient.c:168-214 | PINGREQ is c0 00, DISCONNECT e0 00 |
| MqttExamples.ConnectImage | LiveBooster-C-Library/src/mqttClient/MQTTPacket/MQTTConnectClient.c:58-121 | a CONNECT with all fields, byte by byte, flags and keep-alive time as in section 3.1.2 |
| MqttExamples.OldConnectImage | LiveBooster-C-Library/src/mqttClient/MQTTPacket/MQTTConnectClient.c:58-121 | a CONNECT of version 3 with a retained will of QoS 2, byte by byte |
| MqttExamples.ConnackImage | LiveBooster-C-Library/src/mqttClient/MQTTPacket/MQTTConnectServer.c:119-147 | a CONNACK, byte by byte |
| MqttExamples.PublishImages | LiveBooster-C-Library/src/mqttClient/MQTTPacket/MQTTSerializePublish.c:55-91 | a PUBLISH of QoS 1 and one of QoS 0, byte by byte, as in section 3.3.2 |
| MqttExamples.SubscribeImage | LiveBooster-C-Library/src/mqttClient/MQTTPacket/MQTTSubscribeClient.c:50-86 | the SUBSCRIBE example of section 3.8.3, byte by byte |
| MqttExamples.UnsubscribeImage | LiveBooster-C-Library/src/mqttClient/MQTTPacket/MQTTUnsubscribeClient.c:48-80 | the UNSUBSCRIBE example of section 3.10.3, byte by byte |
| MqttFields.OneFormHasOneLength | LiveBooster-C-Library/src/mqttClient/MQTTPacket/MQTTPacket.c:194-251 | announced and written length of a string differ exactly when both forms are given with different lengths and the counted one is not empty |
| MqttFields.WriteString | LiveBooster-C-Library/src/mqttClient/MQTTPacket/MQTTPacket.c:178-206 | length and text at the pointer, in either form, nothing else touched |
| MqttFields.ReadStringBack | LiveBooster-C-Library/src/mqttClient/MQTTPacket/MQTTPacket.c:215-234 | a written string is read back, provided the packet reaches that far |
| MqttFields.ImageIsFramed | LiveBooster-C-Library/src/mqttClient/MQTTPacket/MQTTPacket.c:113-117 | a packet in a buffer, whatever follows it, is framed by its own length field |
| MqttConnect.Serialize | LiveBooster-C-Library/src/mqttClient/MQTTPacket/MQTTConnectClient.c:58-121 | writes exactly header, shortest length and announced body within the buffer, or nothing and -2 |
| MqttConnect.LengthIsRight | LiveBooster-C-Library/src/mqttClient/MQTTPacket/MQTTConnectClient.c:27-48 | the precomputed length is the length of what is written if and only if the version is 3 or 4 |
| MqttConnect.FlagBits | LiveBooster-C-Library/src/mqttClient/MQTTPacket/MQTTConnectClient.c:90-107 | the flags byte carries each flag and the will QoS at its place |
| MqttConnect.Deserialize | LiveBooster-C-Library/src/mqttClient/MQTTPacket/MQTTConnectServer.c:51-108 | 1 exactly when all announced fields could be read, and then the fields |
| MqttConnect.VersionAcceptedExactlyIf | LiveBooster-C-Library/src/mqttClient/MQTTPacket/MQTTConnectServer.c:30-41 | a protocol name is accepted if and only if it is the beginning of the right one or begins with it |
| MqttConnect.WrongNamesAccepted | LiveBooster-C-Library/src/mqttClient/MQTTPacket/MQTTConnectServer.c:30-41 | the empty name and "MQTTX" are accepted for version 4 |
| MqttConnect.RoundTrip | LiveBooster-C-Library/src/mqttClient/MQTTPacket/MQTTConnectServer.c:51-108 | every CONNECT of version 3 or 4 comes back field by field if and only if a password comes with a user name and the last of the two is not empty; otherwise it is refused |
| MqttConnect.ReadMeans | LiveBooster-C-Library/src/mqttClient/MQTTPacket/MQTTConnectServer.c:51-108 | nothing but a CONNECT of version 3 or 4 is read as one, and never a password without a user name |
| MqttConnect.ConnackReadableExactlyIf | LiveBooster-C-Library/src/mqttClient/MQTTPacket/MQTTConnectClient.c:132-159 | a CONNACK can be read if and only if the type is right and the body has two bytes |
| MqttConnect.DeserializeConnack | LiveBooster-C-Library/src/mqttClient/MQTTPacket/MQTTConnectClient.c:132-159 | flags and code; 1 also for a reply too short to carry them, if its length field is one byte |
| MqttConnect.SerializeConnack | LiveBooster-C-Library/src/mqttClient/MQTTPacket/MQTTConnectServer.c:119-147 | four bytes, or nothing and -2 -- but only below two bytes of room |
| MqttConnect.ConnackRoundTrip | LiveBooster-C-Library/src/mqttClient/MQTTPacket/MQTTConnectServer.c:119-147 | what the server writes as a reply is read back |
| MqttPublish.LengthIsRight | LiveBooster-C-Library/src/mqttClient/MQTTPacket/MQTTSerializePublish.c:31-39 | the precomputed length is right exactly when the topic has one length |
| MqttPublish.Serialize | LiveBooster-C-Library/src/mqttClient/MQTTPacket/MQTTSerializePublish.c:55-91 | writes exactly the announced packet within the buffer, or nothing and -2 |
| MqttPublish.Deserialize | LiveBooster-C-Library/src/mqttClient/MQTTPacket/MQTTDeserializePublish.c:36-69 | the fields, and exactly when 1 is returned: also on giving up, if the length field is one byte |
| MqttPublish.EmptyPublishReturnsOne | LiveBooster-C-Library/src/mqttClient/MQTTPacket/MQTTDeserializePublish.c:53-58 | the PUBLISH 30 00 cannot be read and meets the condition for 1 |
| MqttPublish.EmptyAckReturnsOne | LiveBooster-C-Library/src/mqttClient/MQTTPacket/MQTTDeserializePublish.c:92-99 | so does the PUBACK 40 00 |
| MqttPublish.RoundTrip | LiveBooster-C-Library/src/mqttClient/MQTTPacket/MQTTDeserializePublish.c:36-69 | any topic, payload, QoS, dup, retain and id come back from any buffer that holds the packet |
| MqttPublish.ReadableExactlyIf | LiveBooster-C-Library/src/mqttClient/MQTTPacket/MQTTDeserializePublish.c:36-69 | a PUBLISH can be read if and only if the type is right and the body holds the topic it announces |
| MqttPublish.AckReadableExactlyIf | LiveBooster-C-Library/src/mqttClient/MQTTPacket/MQTTDeserializePublish.c:82-106 | the id of an acknowledgement can be read if and only if the body has two bytes, and is those two |
| MqttPublish.SerializeAck | LiveBooster-C-Library/src/mqttClient/MQTTPacket/MQTTSerializePublish.c:104-127 | four bytes, PUBREL with QoS bits 1, or nothing and -2 |
| MqttPublish.DeserializeAck | LiveBooster-C-Library/src/mqttClient/MQTTPacket/MQTTDeserializePublish.c:82-106 | type, dup and id, and exactly when 1 is returned |
| MqttPublish.AckRoundTrip | LiveBooster-C-Library/src/mqttClient/MQTTPacket/MQTTDeserializePublish.c:82-106 | every acknowledgement comes back with its id |
| MqttSubscribe.ListLength | LiveBooster-C-Library/src/mqttClient/MQTTPacket/MQTTSubscribeClient.c:28-36 | the loop announces the length of the list that will be written |
| MqttSubscribe.Serialize | LiveBooster-C-Library/src/mqttClient/MQTTPacket/MQTTSubscribeClient.c:50-86 | any number of filters, with or without QoS: exactly the announced packet within the buffer, or nothing and -2; its first byte is 16 * type + 8 * dup + 2 |
| MqttSubscribe.HeaderByte | LiveBooster-C-Library/src/mqttClient/MQTTPacket/MQTTUnsubscribeClient.c:65-69 | the first byte is 82 for SUBSCRIBE and a2 for UNSUBSCRIBE |
| MqttSubscribe.ReadList | LiveBooster-C-Library/src/mqttClient/MQTTPacket/MQTTUnsubscribeServer.c:53-60 | the reading loop returns all entries in order, or reports a cut-off entry |
| MqttSubscribe.Deserialize | LiveBooster-C-Library/src/mqttClient/MQTTPacket/MQTTSubscribeServer.c:35-70 | dup, id and the entries, and exactly when 1 is returned |
| MqttSubscribe.CutListReturnsOne | LiveBooster-C-Library/src/mqttClient/MQTTPacket/MQTTSubscribeServer.c:55-64 | a list cut off inside its first filter meets the condition for 1 |
| MqttSubscribe.RoundTrip | LiveBooster-C-Library/src/mqttClient/MQTTPacket/MQTTSubscribeServer.c:35-70 | lists of any length come back in order, SUBSCRIBE and UNSUBSCRIBE alike |
| TopicMatch.SkipLevel | LiveBooster-C-Library/src/mqttClient/MqttClient.c:155-160 | the inner loop stops on the last character of the level |
| TopicMatch.Walk | LiveBooster-C-Library/src/mqttClient/MqttClient.c:143-168 | the pointer loop decides character-wise matching on any filter and any name |
| TopicMatch.WalkIsLevelwise | LiveBooster-C-Library/src/mqttClient/MqttClient.c:143-168 | for every well-formed filter and every name: true exactly when the levels match one by one |
| TopicMatch.MatchesIsStandardOutsideBlindSpots | LiveBooster-C-Library/src/mqttClient/MqttClient.c:143-168 | that is section 4.7.1 of MQTT Version 3.1.1 if and only if no wildcard faces an empty level and no # faces the end of the name |
| TopicMatch.CodeMeetsStandard | LiveBooster-C-Library/src/mqttClient/MqttClient.c:143-168 | the code accepts nothing the standard rejects |
| TopicMatch.HashMissesParent | LiveBooster-C-Library/src/mqttClient/MqttClient.c:143-168 | "a/#" against "a": the standard matches, the code does not |
| TopicMatch.PlusMissesEmptyLevel | LiveBooster-C-Library/src/mqttClient/MqttClient.c:143-168 | "a/+" against "a/": the standard matches, the code does not |
| TopicMatch.HashMustBeLast | LiveBooster-C-Library/src/mqttClient/MqttClient.c:143-168 | a filter with # before its end matches nothing |
| HandlerTable.Handlers.Set | LiveBooster-C-Library/src/mqttClient/MqttClient.c:436-475 | success exactly when the filter is present, or a handler is given and fewer than five filters are; the map then differs at that key only |
| HandlerTable.Handlers.Clean | LiveBooster-C-Library/src/mqttClient/MqttClient.c:229-235 | no handler is left |
| HandlerTable.Handlers.Deliver | LiveBooster-C-Library/src/mqttClient/MqttClient.c:171-201 | every selected handler in slot order with the message, the default one only if none was selected; with well-formed filters these are exactly the handlers whose filter equals the topic or matches it level by level |
| HandlerTable.TableSize | LiveBooster-C-Library/src/mqttClient/MqttClient.c:455-465 | a slot is free exactly while the map has fewer keys than there are slots |
| HandlerTable.TableSet | LiveBooster-C-Library/src/mqttClient/MqttClient.c:466-471 | changing one slot is one map update and keeps the filters distinct |
| HandlerTable.SelectedOnce | LiveBooster-C-Library/src/mqttClient/MqttClient.c:176-190 | the handlers served are those of the selecting slots, one for each, in slot order, also when slots share a handler |
| HandlerTable.SelectsByLevels | LiveBooster-C-Library/src/mqttClient/MqttClient.c:179-182 | a slot with a well-formed filter is selected if and only if it has a handler and its filter equals the topic or matches it level by level |
| HandlerTable.DeliveredByLevels | LiveBooster-C-Library/src/mqttClient/MqttClient.c:171-201 | the handlers called are, in slot order and once each, exactly those whose filter equals the topic or matches it level by level; if there are none, the default handler alone |
| SessionSpec.CycleLawful | LiveBooster-C-Library/src/mqttClient/MqttClient.c:247-330 | every cycle keeps the flags in agreement with a lawful trace: no PINGREQ while one is outstanding, no acceptance while connected |
| SessionSpec.UpMeansAccepted | LiveBooster-C-Library/src/mqttClient/MqttClient.c:372-426 | the link is up only if an accepting CONNACK was received, and since then no cycle failed, nothing was closed and no CONNECT was sent |
| SessionSpec.RunReplies | LiveBooster-C-Library/src/mqttClient/MqttClient.c:268-309 | over any run in which packets can be read and sends succeed, the replies are in order those the packets ask for |
| SessionSpec.WireAnswered | LiveBooster-C-Library/src/mqttClient/MqttClient.c:268-309 | a packet on the wire is answered as it is owed, whatever else is in the read buffer |
| SessionSpec.WireDelivered | LiveBooster-C-Library/src/mqttClient/MqttClient.c:268-278 | a PUBLISH on the wire, of any QoS and whatever else is in the read buffer, is handed to the application field by field, and no other packet is |
| MqttClient.CallsOnWire | LiveBooster-C-Library/src/mqttClient/MqttClient.c:333-347 | over any run of cycles that reads packets from the wire the handler calls are, in order, those of the messages on it, each with the handler table of its time |
| MqttClient.SteadyCalls | LiveBooster-C-Library/src/mqttClient/MqttClient.c:333-347 | while no clean session is closed these calls depend on the messages and the table alone |
| SessionLaws.PingsExactlyIf | LiveBooster-C-Library/src/mqttClient/MqttClient.c:204-226 | after any run of cycles: a cycle pings if and only if keep-alive is on, it reads nothing, for a whole interval nothing was received and nothing was sent, no ping is outstanding and the send succeeds |
| SessionLaws.DeadlinesTell | LiveBooster-C-Library/src/mqttClient/MqttClient.c:204-226 | the two deadlines of the record have passed exactly if nothing was received, or sent, for a whole interval of the run |
| SessionLaws.StaysUpExactlyIf | LiveBooster-C-Library/src/mqttClient/MqttClient.c:247-330 | a cycle that reads a packet keeps the connection and returns its type if and only if a server may send such a packet and the reply it is owed can be sent |
| SessionLaws.SilenceExactlyIf | LiveBooster-C-Library/src/mqttClient/MqttClient.c:247-330 | a cycle that reads nothing keeps it if and only if no ping is due, or one can be sent and none is outstanding; a read error closes it |
| SessionLaws.UnreadablePublish | LiveBooster-C-Library/src/mqttClient/MqttClient.c:274-276 | a PUBLISH that cannot be read is passed over without reply or message |
| SessionLaws.UnreadableRelease | LiveBooster-C-Library/src/mqttClient/MqttClient.c:299-307 | a PUBREC or PUBREL that cannot be read closes the connection without reply |
| SessionSpec.EmptyConnackAccepts | LiveBooster-C-Library/src/mqttClient/MQTTPacket/MQTTConnectClient.c:132-159 | the CONNACK 20 00 is taken for an acceptance |
| SessionSpec.Qos1Answered | LiveBooster-C-Library/src/mqttClient/MqttClient.c:277-284 | a QoS 1 message is answered by a PUBACK that decodes to its id |
| SessionSpec.Qos2Exchange | LiveBooster-C-Library/src/mqttClient/MqttClient.c:268-312 | PUBLISH, PUBREC, PUBREL, PUBCOMP under one id, and no reply to the last (section 4.3.3 of MQTT Version 3.1.1) |
| MqttClient.Client.Ping | LiveBooster-C-Library/src/mqttClient/MqttClient.c:204-226 | sends a PINGREQ only when both deadlines have passed and none is outstanding, and then moves the time limit |
| MqttClient.Client.CloseSession | LiveBooster-C-Library/src/mqttClient/MqttClient.c:238-244 | flags down, and no handler left after a clean session |
| MqttClient.Client.OnPublish | LiveBooster-C-Library/src/mqttClient/MqttClient.c:268-290 | gives the message to each handler of its topic once, whatever its QoS, and acknowledges as the QoS asks; no delivery when the packet cannot be read |
| MqttClient.Client.OnRelease | LiveBooster-C-Library/src/mqttClient/MqttClient.c:291-309 | PUBREC gives PUBREL, PUBREL gives PUBCOMP, under the id received |
| MqttClient.Client.Receive | LiveBooster-C-Library/src/mqttClient/MqttClient.c:97-137 | reading establishes what the rest of the cycle relies on, whatever the transport does; a packet on a prompt wire is the one that arrives |
| MqttClient.Client.Act | LiveBooster-C-Library/src/mqttClient/MqttClient.c:258-330 | flags, deadlines, result, events and handler calls of a cycle that has read; a failure closes the session |
| MqttClient.Client.DoCycle | LiveBooster-C-Library/src/mqttClient/MqttClient.c:247-330 | one cycle from the bytes on the wire to flags, replies and handler calls |
| MqttClient.Client.WaitFor | LiveBooster-C-Library/src/mqttClient/MqttClient.c:354-369 | cycles exactly until the packet was handled, a cycle failed or the time limit was reached; never brings the link up; reporting CONNACK means that packet was the last one received and is in the buffer; a CONNACK that is served in time is reported |
| MqttClient.Client.Yield | LiveBooster-C-Library/src/mqttClient/MqttClient.c:333-347 | sets the time limit, then at least one cycle, until one fails or the limit is reached, none after it; while the wire delivers whole packets in time, the handler calls are in order those of its messages, and if sends succeed the replies are in order those the packets are owed |
| MqttClient.Client.Connect | LiveBooster-C-Library/src/mqttClient/MqttClient.c:372-426 | nothing if connected or without TCP connection; otherwise connected afterwards exactly if the result is 0, which means CONNECT was sent and the reply in the buffer accepts; if the server answers in time, the result is its return code |
| MqttClient.Client.SendConnect | LiveBooster-C-Library/src/mqttClient/MqttClient.c:398-403 | -10 if the packet does not fit the buffer, -21 if it could not be sent, otherwise exactly the CONNECT of the options went out |
| MqttClient.Client.AwaitConnack | LiveBooster-C-Library/src/mqttClient/MqttClient.c:405-423 | -11 if no CONNACK came, otherwise the code it carries; connected exactly at 0 |
| MqttClient.Client.ConnackCode | LiveBooster-C-Library/src/mqttClient/MqttClient.c:408-413 | 0 exactly for a reply with code 0 or one too short to carry a code behind a one-byte length field |
| MqttClient.Client.Disconnect | LiveBooster-C-Library/src/mqttClient/MqttClient.c:617-633 | writes a DISCONNECT and closes, whether or not it could be sent |
| GsmFifo.Fifo.Size | LiveBooster-C-Library/src/heraclesGsm/GsmFifo.c:21-27 | the number of queued bytes |
| GsmFifo.Fifo.FreeSize | LiveBooster-C-Library/src/heraclesGsm/GsmFifo.c:29-35 | 63 minus the number of queued bytes |
| GsmFifo.Fifo.Put | LiveBooster-C-Library/src/heraclesGsm/GsmFifo.c:37-47 | appends, and refuses exactly at 63 bytes |
| GsmFifo.Fifo.Get | LiveBooster-C-Library/src/heraclesGsm/GsmFifo.c:49-72 | the first min(n, size) bytes in order, across the wrap, and the rest stays queued |
| GsmFifo.GetSplits | LiveBooster-C-Library/src/heraclesGsm/GsmFifo.c:56-67 | up to the wrap the oldest bytes are contiguous, and moving the read index drops exactly them |
| TcpClient.Client.Connect | LiveBooster-C-Library/src/heraclesGsm/HeraclesTcpClient.c:34-40 | a connection starts with an empty ring |
| TcpClient.Client.Stop | LiveBooster-C-Library/src/heraclesGsm/HeraclesTcpClient.c:56-61 | and ends with one |
| TcpClient.Client.ModemRead | LiveBooster-C-Library/src/heraclesGsm/HeraclesModem.c:470-491 | all bytes the modem gives are queued in order, none refused, when no more than fits is asked for |
| TcpClient.Client.Read | LiveBooster-C-Library/src/heraclesGsm/HeraclesTcpClient.c:119-146 | the loop moves bytes as `Pump` says, keeps the invariant that bytes handed over, then bytes queued, are the bytes taken from the modem, and touches nothing behind the bytes it returns |
| TcpClient.PumpConserves | LiveBooster-C-Library/src/heraclesGsm/HeraclesTcpClient.c:119-146 | however often the modem is asked and whatever it answers: bytes returned, then bytes queued, are the bytes queued before, then the bytes taken, in order |
| TcpClient.PumpFills | LiveBooster-C-Library/src/heraclesGsm/HeraclesTcpClient.c:122-144 | progress: with a modem that answers and two rounds a byte, the caller gets all it asked for or all there is |
| TcpClient.QueuedComesFirst | LiveBooster-C-Library/src/heraclesGsm/HeraclesTcpClient.c:119-146 | one round in time hands over what is queued, whatever the modem does; a round out of time, or a modem with nothing, ends the call |
| TcpClient.TakesAllOffered | LiveBooster-C-Library/src/heraclesGsm/HeraclesModem.c:470-491 | one read takes all the modem offers, as far as there is room and there are bytes |
| JsonBuffer.Buffer.Snprintf | LiveBooster-C-Library/src/liveBooster/liveBoosterPacket/LiveBooster_json_api.c:98-111 | what fits is written and terminated, and the full length returned, so a cut is no error |
| JsonBuffer.Buffer.AppendOverComma | LiveBooster-C-Library/src/liveBooster/liveBoosterPacket/LiveBooster_json_api.c:128-141 | a trailing comma, and only that, is replaced |
| JsonBuffer.Buffer.BeginSection | LiveBooster-C-Library/src/liveBooster/liveBoosterPacket/LiveBooster_json_api.c:145-155 | the text starts anew with the section, cut to the buffer |
| JsonBuffer.Buffer.AddSectionEnd | LiveBooster-C-Library/src/liveBooster/liveBoosterPacket/LiveBooster_json_api.c:128-141 | the section is closed over its trailing comma |
| JsonBuffer.Buffer.AddNameInt | LiveBooster-C-Library/src/liveBooster/liveBoosterPacket/LiveBooster_json_api.c:176-186 | name and decimal number are appended |
| JsonBuffer.Buffer.End | LiveBooster-C-Library/src/liveBooster/liveBoosterPacket/LiveBooster_json_api.c:98-111 | the message is closed over its trailing comma |
| ConfigMessage.AddParam | LiveBooster-C-Library/src/liveBooster/liveBoosterPacket/LiveBooster_json_api.c:315-380 | the two prints together append the parameter, cut to the buffer |
| ConfigMessage.PiecesAreMembers | LiveBooster-C-Library/src/liveBooster/liveBoosterPacket/LiveBooster_json_api.c:315-380 | pieces with a trailing comma each are the members of the JSON object once the last comma becomes a brace |
| ConfigMessage.EncodeParamsUpdate | LiveBooster-C-Library/src/liveBooster/liveBoosterPacket/LiveBooster_msg_encode.c:296-342 | refused exactly without correlation id or first parameter; otherwise the buffer holds exactly the printed JSON document |
| ConfigMessage.MessageIsDoc | LiveBooster-C-Library/src/liveBooster/liveBoosterPacket/LiveBooster_msg_encode.c:313-340 | append and strip-comma give the printed document, and no intermediate text is longer than it |
| ConfigMessage.DataTexts | LiveBooster-C-Library/src/liveBooster/liveBoosterPacket/LiveBooster_json_api.c:315-380 | one parameter of each type as text |
| ConfigMessage.DocText | LiveBooster-C-Library/src/liveBooster/liveBoosterPacket/LiveBooster_msg_encode.c:296-342 | a whole message as text |
| ConfigMessage.PlainIsC | LiveBooster-C-Library/src/liveBooster/liveBoosterPacket/LiveBooster_json_api.c:315-380 | names and strings that may stand between quotes as they are contain no NUL, so what the round trip asks for is all the encoder asks for |
| Numbers.ScanBack | LiveBooster-C-Library/src/liveBooster/liveBoosterPacket/LiveBooster_msg_decode.c:58-72 | a printed number is scanned back, also by the scan that guesses the base |
| Numbers.PrintedNumbers | LiveBooster-C-Library/src/liveBooster/liveBoosterPacket/LiveBooster_json_api.c:176-186 | numbers are printed in decimal, most significant digit first |
| Numbers.BasedNumbers | LiveBooster-C-Library/src/liveBooster/liveBoosterPacket/LiveBooster_msg_decode.c:58-72 | a row of digits is read as the number it stands for, in base 16 behind 0x, 8 behind 0, otherwise 10 |
| Numbers.DigitValues | LiveBooster-C-Library/src/liveBooster/liveBoosterPacket/LiveBooster_msg_decode.c:58-72 | the digits of each base, in either case |
| Numbers.SignedNumbers | LiveBooster-C-Library/src/liveBooster/liveBoosterPacket/LiveBooster_msg_decode.c:44-72 | sign, white space and the 32 bits that are kept, by example |
| JsonTokens.CheckToken | LiveBooster-C-Library/src/liveBooster/liveBoosterPacket/LiveBooster_msg_decode.c:30-42 | 1 exactly for a string token that spells the name |
| JsonTokens.CorrelationId | LiveBooster-C-Library/src/liveBooster/liveBoosterPacket/LiveBooster_msg_decode.c:92-113 | the number behind the first key "cid", if it is one; never a token outside the array |
| ConfigDecoder.TypeAcceptedExactlyIf | LiveBooster-C-Library/src/liveBooster/liveBoosterPacket/LiveBooster_json_api.c:73-83 | in a text without NUL a type is recognized if and only if it is a non-empty beginning of a type name; it is a whole name exactly with three characters or more |
| ConfigDecoder.AbbreviationAccepted | LiveBooster-C-Library/src/liveBooster/liveBoosterPacket/LiveBooster_json_api.c:73-83 | "i" is taken for "i32" |
| ConfigDecoder.NamedTypes | LiveBooster-C-Library/src/liveBooster/liveBoosterPacket/LiveBooster_json_api.c:21-83 | the five type names and what they mean |
| ConfigDecoder.ValueHasType | LiveBooster-C-Library/src/liveBooster/liveBoosterPacket/LiveBooster_msg_decode.c:117-178 | whatever is handed over is of the declared type: strings from string tokens only, numbers from words only |
| ConfigDecoder.AcceptedMeans | LiveBooster-C-Library/src/liveBooster/liveBoosterPacket/LiveBooster_msg_decode.c:447-568 | what is accepted is blank, or an object that begins with "cfg" and an object, holds a correlation id and has six tokens of the right kinds for every parameter; at most five are entered; the results are 0, -1 and -2 |
| ConfigDecoder.UpdateCnfParam | LiveBooster-C-Library/src/liveBooster/liveBoosterPacket/LiveBooster_msg_decode.c:117-178 | hands over a value of the declared type or nothing; a string is terminated over its closing quote and nothing else changes |
| ConfigDecoder.OneParam | LiveBooster-C-Library/src/liveBooster/liveBoosterPacket/LiveBooster_msg_decode.c:515-558 | the first declared parameter of that name, if the types agree: one callback call and one table entry, at most five entries |
| ConfigDecoder.ParamLoop | LiveBooster-C-Library/src/liveBooster/liveBoosterPacket/LiveBooster_msg_decode.c:488-563 | six tokens a parameter; stops with -2 at the first that does not fit, keeping what was done |
| ConfigDecoder.DecodeParamsReq | LiveBooster-C-Library/src/liveBooster/liveBoosterPacket/LiveBooster_msg_decode.c:447-568 | result, correlation id, calls, table and payload after any request, well-formed or not |
| ConfigRoundTrip.DecodeEncode | LiveBooster-C-Library/src/liveBooster/liveBoosterPacket/LiveBooster_msg_decode.c:447-568 | for all parameters that need no escaping and every receiver: decoding the printed message gives its correlation id and, in order, a call for each parameter declared under that name and type if and only if there are at most five and none is named "cid"; otherwise it is refused |
| ConfigRoundTrip.SameDevice | LiveBooster-C-Library/src/liveBooster/liveBoosterPacket/LiveBooster_msg_encode.c:296-342 | a device with the same parameters receives parameter i as call i with its value |
| ConfigRoundTrip.Exchange | LiveBooster-C-Library/src/liveBooster/liveBoosterPacket/LiveBooster_msg_decode.c:447-568 | the buffer one device fills, given to the decoder of another: accepted exactly under these conditions, and then with all values |
| ConfigRoundTrip.CidParameterRefused | LiveBooster-C-Library/src/liveBooster/liveBoosterPacket/LiveBooster_msg_decode.c:97-110 | a message with the one parameter "cid" is refused |
| ConfigRoundTrip.FindInDoc | LiveBooster-C-Library/src/liveBooster/liveBoosterPacket/LiveBooster_msg_decode.c:92-113 | the search for the correlation id passes over every token of the parameters unless one is named "cid" |
| ConfigRoundTrip.ReadParamsBack | LiveBooster-C-Library/src/liveBooster/liveBoosterPacket/LiveBooster_msg_decode.c:488-563 | reading parameters one by one is not disturbed by the terminators already written |

## Left out

- JsmnParser: strict mode and parent links, which are not built; texts longer than an `int` can index.
- Framing.DecodeBuf: fields that run past the buffer or over more than four bytes; the readers never leave such a field in a buffer (`ClientReader.ReadPacket`, `PacketReader.Read`).
- PacketReader.Read: streams that end inside a packet or carry a length field of five bytes.
- PacketReader.Reader.DecodeNb: sources that report errors, and a fifth length byte.
- PacketReader.Reader.ReadNb: streams with packets of type 0 and sources that report errors; the claim is about complete packets.
- ClientReader.ReadPacket: the remaining time handed to the transport; every transport error is -1; the receive deadline is set in `MqttClient.Client.Receive`.
- MqttConnect.Serialize: strings given in both forms with different lengths, and versions other than 3 and 4, where the announced length is wrong (the length lemmas say exactly when).
- MqttConnect.Deserialize: buffers whose length field cannot be decoded; `ClientReader.ReadPacket` and `MqttFields.ImageIsFramed` establish that it can.
- MqttConnect.DeserializeConnack: buffers that do not hold the whole packet.
- MqttConnect.SerializeConnack: memory of less than four bytes.
- MqttPublish.Serialize: topics given in both forms with different lengths.
- MqttPublish.Deserialize: buffers that do not hold the whole packet.
- MqttPublish.DeserializeAck: buffers that do not hold the whole packet.
- MqttSubscribe.ListLength: filters given in both forms with different lengths.
- MqttSubscribe.Serialize: the same, and QoS values above 255, which the C function narrows to a byte.
- MqttSubscribe.Deserialize: the output arrays; the code never compares the count with `maxcount`, so they are taken to be long enough. The QoS list is kept with the filters.
- MqttFields.ReadInt: reads past the end of a buffer are taken to see zero bytes.
- MqttClient.Client.SendPacket: partial writes; the transport takes the whole packet or fails.
- MqttClient.Client.DoCycle: callbacks that call the client again; the clock is read once in a cycle; uninitialized locals are inputs (`junk`, `junkId`).
- MqttClient.Client.Ping: exact keep-alive timing of section 3.1.2.10 of MQTT Version 3.1.1; timer wrap-around.
- MqttClient.Client.Connect: options of other versions or with strings of two lengths, as for `MqttConnect.Serialize`.
- MqttClient.Client.SendConnect: the same options.
- MqttClient.Client.Disconnect: stopping the TCP layer.
- MqttClient: subscribe, unsubscribe and publish chain `WaitFor` with the serializers and the handler table, all modelled; the functions themselves are not. SUBACK and UNSUBACK are not decoded.
- TopicMatch.Matches: the rule for topics that begin with `$` (section 4.7.2), which the code does not have.
- ResourceTransfer.Downloader.HandleMessage: the version strings and the URI of a request, which steer nothing; sizes of more than 32 bits, which the C library does not define.
- ResourceTransfer.Downloader.GetResources: calls from outside the data callback, the HTTP close and the HTTP error codes.
- ResourceTransfer.Downloader.ProcessGetRsc: the messages published about a transfer, the HTTP close, the retry counter and the return value, which is always 0 or that of the connection.
- Md5Stream.Context: the scratch copy of the block (`block`), which no result depends on.
- TcpClient.Client.Connect: the dialogue with the modem and its result.
- TcpClient.Client.Stop: the dialogue with the modem and the connected flag.
- TcpClient.Client.Read: the AT dialogue with the modem; only its byte loop is modelled.
- JsonBuffer.Buffer.End: texts that fill the buffer, where the bracket may fall outside.
- ConfigMessage.EncodeParamsUpdate: messages longer than 1023 characters, which are cut without an error.
- ConfigMessage.AddParam: float and binary parameters; `LiveBooster_code_b64.c` and float printing are not part of this model.
- ConfigDecoder.UpdateCnfParam: the callback's answer, a null value pointer and the copy of accepted numbers into the application's variables; numbers outside 32 bits; a bare `0x`.
- ConfigDecoder.OneParam: declared parameters of float or binary type.
- ConfigDecoder.ParamLoop: the same.
- ConfigDecoder.DecodeParamsReq: the same.
- The other messages of `LiveBooster_msg_encode.c` (status, data, resources, commands) print with the same operations and would add easy members.
- Arduino, Mbed and Linux platform files, sample applications, `MQTTFormat.c`, tracing.
