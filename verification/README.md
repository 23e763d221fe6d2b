# Verified model of the Tuya device core

This project models the protocol and data-format core of the Tuya IoT daemon in Dafny and proves
properties of it. `dafny verify dfyconfig.toml` checks everything. Each part of the C code is modelled
in its own form: record arrays, buffers and contexts are arrays and classes that methods edit in
place, loops keep their indexes, and every such method is proved against a specification about which
the main theorems are then proved.

## The publish state engine of coreMQTT

`MqttTypes` has the transition tables, `PublishRecords` the record array with its search, append,
compaction, update and deletion, `PublishEngine` the API calls on the two arrays, `ClientSession` the
handlers around them, `SessionOutcomes` what each event does as seen from outside, and `SessionProperties` and
`SenderProperties` what holds over whole runs.

A record array means the sequence of its *live* records, the slots with a nonzero id in slot order;
`Engine` holds these sequences and a history of what an observer sees: reservations, PUBLISHes and
acknowledgements written, acknowledgements received, messages handed to the application. A run is any
sequence of events: arriving packets with arbitrary duplicates, calls of the application, reconnects
with and without a kept session, and direct calls of the engine; whether a write to the transport
succeeds is part of the event. Main results: the exact actions and records of every call, arriving packet and
reconnect, counted on the history; the record invariants and the message order of section
4.6 of MQTT 3.1.1 hold in every reachable state; an id is never delivered twice at QoS 2 without a
completed exchange or a dropped session in between; a PUBREL is sent only after its PUBREC, and an
outgoing message is kept until its PUBACK or PUBCOMP; and the exact condition under which the re-send walk
misses nothing.

## Topic matching

`TopicMatch` proves the index-moving matcher against section 4.7 of MQTT 3.1.1 stated level by level.
It is sound for every topic name and every filter, and it misses exactly two kinds of pairs, which
`Missed` describes by the levels of name and filter.

## The MQTT wire format

`RemainingLength` and `PublishPacket`: the variable-length integer is a bijection between the lengths
of the standard and the byte strings that are accepted, PUBLISH packets round-trip in both directions, and
every byte of a packet is stated in numbers.

## Two JSON engines

`JsonScan`, `JsonCollection`, `JsonGrammar`, `JsonDocument`, `JsonFound`, `JsonAccepted`, `JsonStrict`,
`JsonBrackets`, `JsonIncomplete`, `JsonSearch`, `JsonQuery` and `JsonExamples` model coreJSON. Documents are trees with texts: *strict* ones are
those of ECMA-404, *loose* ones have the four liberties the validator allows. The validator with its
32-entry bracket stack equals recursive descent on every buffer; it accepts exactly the texts of loose
documents nested at most 32 deep, such a text is JSON exactly when its tree is strict, and a buffer is
incomplete exactly when it is blank or closing brackets alone make a document of it. `JSON_Search`
finds what a recursive lookup in the tree finds, and the queries it understands are described exactly.

`CJsonTree`, `CJsonParse`, `CJsonParser`, `CJsonPrinter`, `CJsonRoundTrip`, `CJsonStrings` and `CJsonDocuments`
model cJSON: the parser with its moving offset and measured allocations, the printer whose buffer may be
moved between any two writes, the round trip between them, and that every JSON text, in the grammar that
coreJSON is measured by, is parsed to the tree it stands for.

## AES

`AesTables`, `AesCipher`, `AesBlock`, `AesKeys`, `AesBytes`, `AesVectors` and `AesGenerate` prove the
table-driven block cipher and its key schedules against FIPS 197 and each other: decryption inverts
encryption for every key and block, every step and schedule word is stated byte by byte, the vectors of
appendix C are proved, and the generated tables are the constant ones. `AesXts` and `AesStreams` prove the modes: XTS
with ciphertext stealing, CTR and CFB128 cut into calls in any way. The theorems about modes take an
arbitrary block function; the methods use the AES context.

## Base64 and response bodies

`Base64` proves the codec with its two passes, `HttpBody` the in-place collection of a chunked body.
`Bytes` and `Division` hold what several modules need.

## Where the code and its documentation differ

- The header of the state engine promises that repeated calls of `MQTT_PubrelToResend` give all pending
  PUBRELs (core_mqtt_state.h:169-177). Deletion and compaction clear only the id of a slot while selection
  looks only at its state, so a left-over state ends the walk early: `PubrelMissedAfterCompletion` shows
  it in an ordinary flow, `WalkCompleteIff` is the exact condition.
- `MQTT_Publish` with DUP writes a PUBLISH again in the PUBREL phase and only then reports the error. Section
  4.3.3 of MQTT 3.1.1 forbids it once the PUBREL has been sent. `PublishInPubrelPhase` says exactly when it
  happens and when it is the forbidden case, `PublishSentAgain` shows both in a run.
- `MQTT_MatchTopic` misses pairs that match by the standard: `MissedPairs`, and exactly those of `Missed`.
- `JSON_Validate` promises success for valid JSON only (core_json.h:61). It also accepts an outermost pair of
  brackets that does not match, a missing comma in front of a collection, a collection without a key in an
  object, and a backslash in front of a control byte. These four are all: `AcceptedExactly` and `JsonExactly`;
  `LooseAcceptance` has an input for each.
- `JSON_Search` promises a bad parameter when nothing stands behind a separator (core_json.h:123). Behind an
  index a separator is ignored, also at the end of the query: `TrailingSeparator` says when the promise holds,
  `QueryUnderstood` which queries are understood.
- `JSON_Validate` promises to report contents that are "potentially valid but incomplete" as such
  (core_json.h:66). That is so only where brackets are all that is missing: `IncompleteExactly`. A document cut
  off inside a string is reported as illegal: `CutOffIllegal`.
- `JSON_Search` promises to refuse an index that is too large for a signed 32-bit integer (core_json.h:124). It also
  refuses the eight largest that are not: `LargestIndex`.
- The size check for PUBLISH compares the whole packet, not its remaining length, with the largest
  remaining length of the standard, while the messages it logs speak of the remaining length. `SizeLimit`: the
  five largest allowed lengths are refused.
- A PUBLISH with an empty topic, or with DUP at QoS 0, is read but could not have been written:
  `ReadButNeverSent`.
- The base64 decoder promises to report the size that has or would have been written (base64.h:70-71). With
  symbols behind the last complete group it announces more than it writes; the two sizes agree exactly when
  nothing but padding stands there: `SizeExact`, `IncompleteGroup`.
- cJSON reads a hexadecimal escape with a wrong digit as the zero character instead of refusing it:
  `WrongDigitAccepted`; `WrongDigitRead` and `WrongSecondRefused` say exactly when it is refused, and
  `LiteralFits` that the allocated memory suffices even then.

## Model

| member | source | states |
|---|---|---|
| `PublishRecords.FindInRecord` | tuya-iot-core-sdk/libraries/coreMQTT/source/core_mqtt_state.c:420-443 | finds the first slot with an id, or reports the array length and the null state; how many live records lie in front of the slot is the place of the id in the live sequence |
| `PublishRecords.CompactRecords` | tuya-iot-core-sdk/libraries/coreMQTT/source/core_mqtt_state.c:447-483 | the sequence of live records is unchanged, and every live record now lies in front of every free slot |
| `PublishRecords.AddRecord` | tuya-iot-core-sdk/libraries/coreMQTT/source/core_mqtt_state.c:487-550 | refines append on a bounded sequence without duplicates, however fragmented the array is: collision exactly when the id is live, no memory exactly when it is not and the array is full, otherwise live records + [record]; without compaction only the first slot behind the live ones changes |
| `PublishRecords.UpdateRecord` | tuya-iot-core-sdk/libraries/coreMQTT/source/core_mqtt_state.c:554-570 | one slot is edited, and with it exactly that record of the live sequence: removed, or only its state changed; deletion leaves the state behind |
| `PublishRecords.ClearRecords` | tuya-iot-core-sdk/libraries/coreMQTT/source/core_mqtt.c:1575-1584 | every slot is zero and no record is live |
| `PublishEngine.Context.constructor` | tuya-iot-core-sdk/libraries/coreMQTT/source/core_mqtt.c:1666-1725 | a fresh context has two empty record arrays of the same size |
| `PublishEngine.Context.ReserveState` | tuya-iot-core-sdk/libraries/coreMQTT/source/core_mqtt_state.c:784-809 | the whole outcome of reserving an outgoing PUBLISH on the live records, and the slot it takes when nothing has to be compacted |
| `PublishEngine.Context.MarkSent` | tuya-iot-core-sdk/libraries/coreMQTT/source/core_mqtt_state.c:729-780 | sending a PUBLISH moves exactly the record with its id and quality of service to the pending state, or is refused |
| `PublishEngine.Context.UpdateStatePublish` | tuya-iot-core-sdk/libraries/coreMQTT/source/core_mqtt_state.c:842-912 | the status, the next state and all live records after a PUBLISH has been sent or received |
| `PublishEngine.Context.UpdateRecordForAck` | tuya-iot-core-sdk/libraries/coreMQTT/source/core_mqtt_state.c:669-725 | an accepted acknowledgement removes its record, moves it to the end, or changes only its state; the record taken out for a PUBREC is always taken in again |
| `PublishEngine.Context.Acknowledge` | tuya-iot-core-sdk/libraries/coreMQTT/source/core_mqtt_state.c:949-979 | an acknowledgement acts on the record with its id in one array and on no other; an unknown id is a bad response |
| `PublishEngine.Context.UpdateStateAck` | tuya-iot-core-sdk/libraries/coreMQTT/source/core_mqtt_state.c:916-984 | the status, the next state and all live records after an acknowledgement, and what exactly happens to the slots of outgoing records |
| `PublishEngine.Context.StateSelect` | tuya-iot-core-sdk/libraries/coreMQTT/source/core_mqtt_state.c:574-616 | returns the id in the next slot in a wanted state, free or not, and moves the cursor behind it |
| `PublishEngine.Context.PubrelToResend` | tuya-iot-core-sdk/libraries/coreMQTT/source/core_mqtt_state.c:988-1020 | one call takes one step of the walk over the records that await a PUBREL or PUBCOMP |
| `PublishEngine.Context.PublishToResend` | tuya-iot-core-sdk/libraries/coreMQTT/source/core_mqtt_state.c:1024-1050 | one call takes one step of the walk over the PUBLISHes without acknowledgement |
| `PublishEngine.WalkIsPrefix` | tuya-iot-core-sdk/libraries/coreMQTT/source/core_mqtt_state.c:574-616 | what repeated selection hands out is always a prefix of the records that have to be resent, in their order |
| `PublishEngine.WalkStopsAt` | tuya-iot-core-sdk/libraries/coreMQTT/source/core_mqtt_state.c:574-616 | the walk never gets past a free slot that still carries a wanted state |
| `PublishEngine.WalkCompleteIff` | tuya-iot-core-sdk/libraries/coreMQTT/source/core_mqtt_state.c:574-616 | the walk hands out every record that has to be resent exactly when no free slot with a left-over wanted state lies in front of a live record in a wanted state |
| `ClientSession.SendPublishAcks` | tuya-iot-core-sdk/libraries/coreMQTT/source/core_mqtt.c:904-962 | the acknowledgement a state calls for is sent and recorded, or nothing is recorded when the write fails; re-sending a PUBREL changes no slot behind its own |
| `ClientSession.HandleIncomingPublish` | tuya-iot-core-sdk/libraries/coreMQTT/source/core_mqtt.c:1001-1111 | a new PUBLISH is delivered and acknowledged, a duplicate is acknowledged again and not delivered, anything else changes nothing |
| `ClientSession.HandlePublishAcks` | tuya-iot-core-sdk/libraries/coreMQTT/source/core_mqtt.c:1115-1178 | an incoming acknowledgement updates its record, and the next packet of the exchange is sent |
| `ClientSession.Publish` | tuya-iot-core-sdk/libraries/coreMQTT/source/core_mqtt.c:1885-1955 | reserve, send and mark as sent; a failed write leaves the reserved record, a duplicate goes on with the existing one |
| `ClientSession.HandleSessionResumption` | tuya-iot-core-sdk/libraries/coreMQTT/source/core_mqtt.c:1551-1587 | a kept session re-sends PUBRELs for exactly the ids of the resend walk, in its order, until a write fails; a new session forgets all records |
| `ClientSession.WalkLocal` | tuya-iot-core-sdk/libraries/coreMQTT/source/core_mqtt.c:1551-1587 | re-sending while walking does not disturb the rest of the walk |
| `SessionProperties.InvStep` | tuya-iot-core-sdk/libraries/coreMQTT/source/core_mqtt_state.c:216-389 | every packet, call, failed write and reconnect keeps the record invariants: distinct ids, QoS 1 and QoS 2 records only in the states of their exchange, no more records than slots, and the message order |
| `SessionProperties.RunInvariant` | tuya-iot-core-sdk/libraries/coreMQTT/source/core_mqtt_state.c:784-984 | the record invariants hold in every state the client can reach, over all calls in any order |
| `SessionProperties.RefusedUnchanged` | tuya-iot-core-sdk/libraries/coreMQTT/source/core_mqtt_state.c:784-984 | a refused call changes no record, and adding the record again after a PUBREC never fails |
| `SessionProperties.MatchingOrder` | tuya-iot-core-sdk/libraries/coreMQTT/source/core_mqtt_state.c:988-1050 | records to be resent stand in the order of their reservations, or of their PUBRECs |
| `SessionProperties.ResendOrder` | tuya-iot-core-sdk/libraries/coreMQTT/source/core_mqtt_state.c:988-1050 | in every reachable state and for every slot layout: PUBRELs are re-sent in the order of their PUBRECs and PUBLISHes in the order of their reservations (section 4.6 of MQTT 3.1.1), and none is missed exactly under the condition on free slots |
| `SessionProperties.ResumptionIsStep` | tuya-iot-core-sdk/libraries/coreMQTT/source/core_mqtt.c:1551-1587 | the ids that session resumption works on are those of a step of the run model |
| `SessionProperties.PubrecMovesRecord` | tuya-iot-core-sdk/libraries/coreMQTT/source/core_mqtt_state.c:669-725 | a PUBREC moves its record behind all others, into the PUBREL phase |
| `SessionProperties.PubrecAnswered` | tuya-iot-core-sdk/libraries/coreMQTT/source/core_mqtt.c:1115-1178 | a PUBREC is answered with a PUBREL for the same id |
| `SessionProperties.PubcompRemoves` | tuya-iot-core-sdk/libraries/coreMQTT/source/core_mqtt_state.c:669-725 | a PUBCOMP removes exactly its record |
| `SessionProperties.CompletionHidesLater` | tuya-iot-core-sdk/libraries/coreMQTT/source/core_mqtt_state.c:554-616 | after a PUBCOMP the walk hands out no record from behind the vacated slot |
| `SessionProperties.SecondPubrelHidden` | tuya-iot-core-sdk/libraries/coreMQTT/source/core_mqtt_state.c:554-616 | with two records in the PUBREL phase, completing the first makes the walk hand out none although the second is pending |
| `SessionProperties.PubrelMissedAfterCompletion` | tuya-iot-core-sdk/libraries/coreMQTT/source/include/core_mqtt_state.h:169-177 | the promise that repeated calls give all pending PUBRELs fails in an ordinary flow of two messages on the real record arrays |
| `SessionProperties.StepTracks` | tuya-iot-core-sdk/libraries/coreMQTT/source/core_mqtt.c:1001-1178 | each step moves the record of an incoming QoS 2 message as the observed history moves its phase |
| `SessionProperties.DeliveryLegal` | tuya-iot-core-sdk/libraries/coreMQTT/source/core_mqtt.c:1001-1178 | in every run the history of each id is a legal QoS 2 receiver exchange: delivery only when the id is idle, PUBCOMP sent only after delivery, a sent PUBREC and a received PUBREL (section 4.3.3 of MQTT 3.1.1) |
| `SessionProperties.DeliveriesBounded` | tuya-iot-core-sdk/libraries/coreMQTT/source/core_mqtt.c:1001-1178 | in a legal history the numbers of deliveries and completions of an id differ by at most one, dropped sessions aside |
| `SessionProperties.AtMostOnceDelivery` | tuya-iot-core-sdk/libraries/coreMQTT/source/core_mqtt.c:1001-1178 | in every run, with duplicates, reconnects and failed writes, a QoS 2 id is delivered at most once more than it was completed with PUBCOMP or the session was dropped, and never less often than completed |
| `SenderProperties.SenderStep` | tuya-iot-core-sdk/libraries/coreMQTT/source/core_mqtt.c:904-1955 | every event keeps the sender side legal: a PUBREC is accepted when it has arrived, a PUBREL is sent only after that, a PUBLISH without DUP only right behind its reservation, and a record says whether its PUBREL has been sent |
| `SenderProperties.SenderLegal` | tuya-iot-core-sdk/libraries/coreMQTT/source/core_mqtt.c:904-1955 | in every run the whole history of the sender side is legal (section 4.3.3 of MQTT 3.1.1) |
| `SenderProperties.KeptUntilAcknowledged` | tuya-iot-core-sdk/libraries/coreMQTT/source/core_mqtt_state.c:669-984 | from every reachable state: an outgoing message is forgotten exactly when the PUBACK or PUBCOMP that ends its exchange arrives, or when the session is dropped |
| `SenderProperties.PublishInPubrelPhase` | tuya-iot-core-sdk/libraries/coreMQTT/source/core_mqtt.c:1885-1955 | in the PUBREL phase a PUBLISH of any quality of service above 0 is written again exactly when the caller sets DUP, and is then reported as an error; the records stay; the PUBREL has been sent, so that the standard forbids it, exactly when the record is in the later state of the phase |
| `SenderProperties.PublishSentAgain` | tuya-iot-core-sdk/libraries/coreMQTT/source/core_mqtt.c:1885-1955 | a run of three events ends with such a PUBLISH, with the PUBREL sent and with its write failed |
| `SessionOutcomes.PublishWritten` | tuya-iot-core-sdk/libraries/coreMQTT/source/core_mqtt.c:1885-1955 | for every reachable state and all arguments, in numbers of actions: a PUBLISH is written once exactly when its header was written, the transport takes it, and it has quality of service 0, gets a record now, or is a duplicate with a live record; otherwise nothing is written |
| `SessionOutcomes.PublishRecorded` | tuya-iot-core-sdk/libraries/coreMQTT/source/core_mqtt.c:1885-1955 | success above quality of service 0 leaves the record of the id waiting for its PUBACK or PUBREC; no other record is touched by any call |
| `SessionOutcomes.PublishNew` | tuya-iot-core-sdk/libraries/coreMQTT/source/core_mqtt.c:1885-1955 | the whole outcome for a new message: its record stays behind as sent, or as still to be sent when the write fails |
| `SessionOutcomes.PublishAgain` | tuya-iot-core-sdk/libraries/coreMQTT/source/core_mqtt.c:1885-1955 | the whole outcome for a message with a live record, with and without DUP |
| `SessionOutcomes.PublishRefused` | tuya-iot-core-sdk/libraries/coreMQTT/source/core_mqtt.c:1885-1955 | the status of every refused call, and that it changes nothing |
| `SessionOutcomes.PublishDelivered` | tuya-iot-core-sdk/libraries/coreMQTT/source/core_mqtt.c:1001-1111 | for every reachable state and quality of service, in numbers of actions: an arriving PUBLISH is handed to the application once exactly when it has quality of service 0, or its id is not live and there is room; it, and every duplicate, is acknowledged with PUBACK or PUBREC whenever the transport takes that |
| `SessionOutcomes.ArrivedNew` | tuya-iot-core-sdk/libraries/coreMQTT/source/core_mqtt.c:1001-1111 | after a new PUBLISH: no record at quality of service 1, one that waits for PUBREL at 2; with a failed write the record of the acknowledgement still to be sent |
| `SessionOutcomes.ArrivedAgain` | tuya-iot-core-sdk/libraries/coreMQTT/source/core_mqtt.c:1001-1111 | the whole outcome for a duplicate: acknowledged, not delivered, the record moved on or refused |
| `SessionOutcomes.AckTable` | tuya-iot-core-sdk/libraries/coreMQTT/source/core_mqtt_state.c:284-416 | of all records, acknowledgements and directions exactly eleven combinations are transitions |
| `SessionOutcomes.AckAnswered` | tuya-iot-core-sdk/libraries/coreMQTT/source/core_mqtt.c:1115-1178 | in numbers of actions: a PUBREC that a record waits for is answered with one PUBREL and a PUBREL with one PUBCOMP when the transport takes it, and nothing else is sent or delivered |
| `SessionOutcomes.PubrecExpected` | tuya-iot-core-sdk/libraries/coreMQTT/source/core_mqtt.c:1115-1178 | after a PUBREC the record stands behind all others and says whether its PUBREL has been sent |
| `SessionOutcomes.PubrelExpected` | tuya-iot-core-sdk/libraries/coreMQTT/source/core_mqtt.c:1115-1178 | after a PUBREL the record is gone, or says that the PUBCOMP is still to be sent |
| `SessionOutcomes.EndExpected` | tuya-iot-core-sdk/libraries/coreMQTT/source/core_mqtt.c:1115-1178 | PUBACK and PUBCOMP remove exactly their record |
| `SessionOutcomes.AckUnexpected` | tuya-iot-core-sdk/libraries/coreMQTT/source/core_mqtt.c:1115-1178 | any other acknowledgement changes no record and sends nothing; the status says why |
| `SessionOutcomes.ResumptionSends` | tuya-iot-core-sdk/libraries/coreMQTT/source/core_mqtt.c:1551-1587 | in every reachable state and for every slot layout: a reconnect writes one PUBREL for each id of the walk in its order until a write fails and nothing else; exactly these records then wait for PUBCOMP |
| `SessionOutcomes.MatchingAll` | tuya-iot-core-sdk/libraries/coreMQTT/source/core_mqtt_state.c:988-1050 | every live record in a wanted state is among those that have to be resent |
| `TopicMatch.MatchEndWildcardsSpecialCases` | tuya-iot-core-sdk/libraries/coreMQTT/source/core_mqtt.c:367-404 | recognises exactly the filter endings that may follow the last character of a name |
| `TopicMatch.MatchWildcards` | tuya-iot-core-sdk/libraries/coreMQTT/source/core_mqtt.c:408-509 | from two differing characters: the verdict, or positions from which matching goes on with the same outcome |
| `TopicMatch.MatchTopicFilter` | tuya-iot-core-sdk/libraries/coreMQTT/source/core_mqtt.c:513-575 | the index loop computes the level-by-level outcome for every wildcard-free name and every filter |
| `TopicMatch.FoundIff` | tuya-iot-core-sdk/libraries/coreMQTT/source/core_mqtt.c:513-575 | that outcome is matching by levels, minus the two kinds of missed pairs |
| `TopicMatch.StrnEqualIsEqual` | tuya-iot-core-sdk/libraries/coreMQTT/source/core_mqtt.c:2309-2314 | the bounded comparison is equality for names without a null character |
| `TopicMatch.MatchTopic` | tuya-iot-core-sdk/libraries/coreMQTT/source/core_mqtt.c:2275-2340 | for every topic name and every filter, malformed ones too: a match is reported exactly when section 4.7 of MQTT 3.1.1 says so, the rule for "$" included, and the pair is not one of the missed ones |
| `TopicMatch.HashFiltersComplete` | tuya-iot-core-sdk/libraries/coreMQTT/source/core_mqtt.c:2275-2340 | a filter without "+" misses nothing |
| `TopicMatch.MissedPairs` | tuya-iot-core-sdk/libraries/coreMQTT/source/core_mqtt.c:408-509 | "+/#" on "sport" and "+/+" on "a/" match by the standard and are missed |
| `TopicMatch.LevelsOfJoin` | tuya-iot-core-sdk/libraries/coreMQTT/source/core_mqtt.c:408-509 | the levels of a text are exactly the parts between its separators, empty ones included |
| `TopicMatch.StandardExamples` | tuya-iot-core-sdk/libraries/coreMQTT/source/core_mqtt.c:408-575 | the examples of sections 4.7.1.2 and 4.7.1.3 of MQTT 3.1.1 |
| `TopicMatch.DollarExamples` | tuya-iot-core-sdk/libraries/coreMQTT/source/core_mqtt.c:2275-2340 | the rule of section 4.7.2 for topics that start with a dollar sign |
| `JsonScan.SkipSpace` | tuya-iot-core-sdk/libraries/coreJSON/source/core_json.c:69-86 | stops at the first byte that is no white space |
| `JsonScan.CountHighBits` | tuya-iot-core-sdk/libraries/coreJSON/source/core_json.c:96-108 | the number of leading one bits of a byte |
| `JsonScan.SkipUTF8MultiByte` | tuya-iot-core-sdk/libraries/coreJSON/source/core_json.c:185-237 | accepts exactly a shortest-form UTF-8 sequence of two to four bytes that is no surrogate |
| `JsonScan.SkipOneHexEscape` | tuya-iot-core-sdk/libraries/coreJSON/source/core_json.c:324-363 | accepts a four-digit escape with a nonzero value and something behind it |
| `JsonScan.SkipString` | tuya-iot-core-sdk/libraries/coreJSON/source/core_json.c:504-557 | stops behind the closing quote, or where it started when the string is no legal one |
| `JsonScan.StrnEq` | tuya-iot-core-sdk/libraries/coreJSON/source/core_json.c:569-586 | true exactly when the first n bytes are equal |
| `JsonScan.SkipDigits` | tuya-iot-core-sdk/libraries/coreJSON/source/core_json.c:667-714 | the end of a run of digits and its value, or -1 when that gets too large |
| `JsonScan.SkipArrayScalars` | tuya-iot-core-sdk/libraries/coreJSON/source/core_json.c:909-933 | stops behind the longest run of comma-separated scalars |
| `JsonScan.SkipObjectScalars` | tuya-iot-core-sdk/libraries/coreJSON/source/core_json.c:950-997 | stops behind the longest run of keys with scalars, at a key with a collection before the collection |
| `JsonCollection.SkipCollection` | tuya-iot-core-sdk/libraries/coreJSON/source/core_json.c:1044-1113 | the loop with its explicit bracket stack computes what recursive descent computes, for every buffer |
| `JsonCollection.ResumePush` | tuya-iot-core-sdk/libraries/coreJSON/source/core_json.c:1063-1076 | pushing an opening bracket enters the recursive call |
| `JsonCollection.ResumePop` | tuya-iot-core-sdk/libraries/coreJSON/source/core_json.c:1078-1091 | popping a matching bracket returns from it |
| `JsonGrammar.Utf8Scan` | tuya-iot-core-sdk/libraries/coreJSON/source/core_json.c:185-272 | every encoding of a code point that may stand in a string is skipped exactly |
| `JsonGrammar.HexScan` | tuya-iot-core-sdk/libraries/coreJSON/source/core_json.c:282-363 | four digits are read as their value |
| `JsonGrammar.StringScan` | tuya-iot-core-sdk/libraries/coreJSON/source/core_json.c:504-557 | every string of the grammar, strict or not, is skipped exactly |
| `JsonGrammar.NumberScan` | tuya-iot-core-sdk/libraries/coreJSON/source/core_json.c:787-831 | every number of the grammar is skipped exactly |
| `JsonGrammar.ScalarScan` | tuya-iot-core-sdk/libraries/coreJSON/source/core_json.c:843-857 | every scalar of the grammar, strict or not, is skipped exactly when a delimiter follows |
| `JsonDocument.ScalarMember` | tuya-iot-core-sdk/libraries/coreJSON/source/core_json.c:909-997 | a scalar member with its key and white space is consumed by a run of scalars up to what stands behind it |
| `JsonDocument.BodyInside` | tuya-iot-core-sdk/libraries/coreJSON/source/core_json.c:1044-1113 | inside an open collection every rest of a body, strict or loose, leads exactly to the closing bracket, or is refused as nested too deep |
| `JsonDocument.CollectionSkipped` | tuya-iot-core-sdk/libraries/coreJSON/source/core_json.c:1044-1113 | every collection of ECMA-404, and every loose one, is skipped exactly, whatever follows it, when it is nested at most 32 deep, and refused as too deep otherwise |
| `JsonDocument.Validate` | tuya-iot-core-sdk/libraries/coreJSON/source/core_json.c:1123-1166 | the verdict on every buffer, from recursive descent |
| `JsonDocument.DocumentAccepted` | tuya-iot-core-sdk/libraries/coreJSON/source/core_json.c:1123-1166 | every JSON document, and every loose one, is accepted when nested at most 32 deep, and reported as too deep otherwise |
| `JsonFound.CharFound` | tuya-iot-core-sdk/libraries/coreJSON/source/core_json.c:185-272 | whatever is skipped as a character outside ASCII is the UTF-8 encoding of one code point |
| `JsonFound.HexFound` | tuya-iot-core-sdk/libraries/coreJSON/source/core_json.c:282-363 | whatever is skipped as a hexadecimal escape has four digits with that value |
| `JsonFound.StringFound` | tuya-iot-core-sdk/libraries/coreJSON/source/core_json.c:504-557 | whatever is skipped as a string is the text of one |
| `JsonFound.NumberFound` | tuya-iot-core-sdk/libraries/coreJSON/source/core_json.c:787-831 | whatever is skipped as a number is the text of one |
| `JsonFound.ScalarFound` | tuya-iot-core-sdk/libraries/coreJSON/source/core_json.c:843-857 | whatever is skipped as a scalar is the text of one |
| `JsonAccepted.BodyFound` | tuya-iot-core-sdk/libraries/coreJSON/source/core_json.c:1044-1113 | whatever is skipped from inside a collection up to its end is the text of a body, loose or strict, with its closing bracket |
| `JsonAccepted.DocumentFound` | tuya-iot-core-sdk/libraries/coreJSON/source/core_json.c:1123-1166 | whatever is accepted is the text of a document nested at most 32 deep |
| `JsonAccepted.AcceptedExactly` | tuya-iot-core-sdk/libraries/coreJSON/source/core_json.c:1123-1166 | a buffer is accepted exactly when it is the text of a document of the loose grammar nested at most 32 deep |
| `JsonStrict.ValuesAgree` | tuya-iot-core-sdk/libraries/coreJSON/source/core_json.c:1044-1113 | two trees with the same text are both strict or both not |
| `JsonStrict.JsonExactly` | tuya-iot-core-sdk/libraries/coreJSON/source/include/core_json.h:61-66 | a text of the loose grammar is JSON exactly when its tree is strict: all brackets match, commas stand between all members, all members of objects have keys, no string has a backslash in front of a control byte |
| `JsonStrict.AcceptedIsJson` | tuya-iot-core-sdk/libraries/coreJSON/source/include/core_json.h:61-66 | JSONSuccess means valid JSON exactly under these four conditions on the tree of the accepted buffer |
| `JsonStrict.LooseAcceptance` | tuya-iot-core-sdk/libraries/coreJSON/source/core_json.c:437-1113 | each of the four conditions fails in an accepted document of its own, which is not JSON |
| `JsonBrackets.InsidePaired` | tuya-iot-core-sdk/libraries/coreJSON/source/core_json.c:1044-1113 | from inside any accepted collection: properly paired brackets, then the closing one |
| `JsonBrackets.AcceptedBrackets` | tuya-iot-core-sdk/libraries/coreJSON/source/core_json.c:1044-1113 | whatever the buffer holds, in an accepted collection all brackets outside strings but the outermost pair are paired, with at most 32 open at once |
| `JsonBrackets.OutermostPair` | tuya-iot-core-sdk/libraries/coreJSON/source/core_json.c:1078-1094 | the brackets are paired throughout exactly when the outermost two match |
| `JsonBrackets.AcceptedDocument` | tuya-iot-core-sdk/libraries/coreJSON/source/core_json.c:1123-1166 | an accepted document has no brackets outside strings, or an outermost pair around paired ones |
| `JsonIncomplete.IncompleteExactly` | tuya-iot-core-sdk/libraries/coreJSON/source/include/core_json.h:61-66 | a buffer is reported as incomplete exactly when it is white space, or when some closing brackets and nothing else make an accepted document of it |
| `JsonIncomplete.InsideSame` | tuya-iot-core-sdk/libraries/coreJSON/source/core_json.c:1044-1113 | a collection that is settled before the end of the buffer is settled in the same way when closing brackets follow |
| `JsonIncomplete.Closable` | tuya-iot-core-sdk/libraries/coreJSON/source/core_json.c:1044-1113 | whatever is open at the end of the buffer can be closed by brackets |
| `JsonIncomplete.CutOffIllegal` | tuya-iot-core-sdk/libraries/coreJSON/source/include/core_json.h:61-66 | a document cut off inside a string is reported as illegal |
| `JsonExamples.Tokens` | tuya-iot-core-sdk/libraries/coreJSON/source/core_json.c:69-857 | the bytes with a meaning in JSON, in ASCII |
| `JsonExamples.Utf8Layout` | tuya-iot-core-sdk/libraries/coreJSON/source/core_json.c:185-237 | length, leading bits and digits of UTF-8 as in section 3 of RFC 3629 |
| `JsonSearch.NextValue` | tuya-iot-core-sdk/libraries/coreJSON/source/core_json.c:1186-1218 | the end of the value at an index, or failure |
| `JsonSearch.NextKeyValuePair` | tuya-iot-core-sdk/libraries/coreJSON/source/core_json.c:1237-1291 | the spans of key and value of an entry, or failure |
| `JsonSearch.ObjectSearch` | tuya-iot-core-sdk/libraries/coreJSON/source/core_json.c:1310-1360 | the span of the first entry with the key |
| `JsonSearch.ArraySearch` | tuya-iot-core-sdk/libraries/coreJSON/source/core_json.c:1378-1427 | the span of the element with the index |
| `JsonSearch.SkipQueryPart` | tuya-iot-core-sdk/libraries/coreJSON/source/core_json.c:1445-1473 | the end of a key in a query |
| `JsonSearch.MultiSearch` | tuya-iot-core-sdk/libraries/coreJSON/source/core_json.c:1492-1566 | following a query through slices of the buffer, in one pass over the query, is following its parsed parts |
| `JsonSearch.Search` | tuya-iot-core-sdk/libraries/coreJSON/source/core_json.c:1573-1608 | the span found with the quotes of a string left out, or the status |
| `JsonSearch.SelectFound` | tuya-iot-core-sdk/libraries/coreJSON/source/core_json.c:1310-1427 | among the entries of a collection the scan finds exactly the first member a lookup selects; in a loose one the lookup ends at a missing comma or key |
| `JsonSearch.FollowLookup` | tuya-iot-core-sdk/libraries/coreJSON/source/core_json.c:1492-1566 | following a query is the recursive lookup in the tree |
| `JsonSearch.SearchAgrees` | tuya-iot-core-sdk/libraries/coreJSON/source/core_json.c:1573-1608 | for every document the validator takes, and those one level deeper, and every query: the same span as the recursive lookup, and the same status when the lookup fails: not found for a part that is missing, bad parameter when a malformed part is reached before that |
| `JsonSearch.ParseRender` | tuya-iot-core-sdk/libraries/coreJSON/source/core_json.c:1492-1566 | a path rendered with dots and square brackets is parsed back to its parts; an index above the limit is malformed |
| `JsonSearch.PathSearch` | tuya-iot-core-sdk/libraries/coreJSON/source/core_json.c:1573-1608 | searching for a rendered path is looking the path up |
| `JsonExamples.ExampleFound` | tuya-iot-core-sdk/libraries/coreJSON/source/include/core_json.h:128-156 | in the document of the header's example "foo" is found at the outer level and "bar.foo" in the inner object |
| `JsonQuery.QueryUnderstood` | tuya-iot-core-sdk/libraries/coreJSON/source/core_json.c:1492-1566 | a query has no malformed part exactly when it is the text of a path with one separator between two keys, none behind a key at the end, and optional ones next to indexes, which are at most 2^31 - 9 |
| `JsonQuery.PartsParsed` | tuya-iot-core-sdk/libraries/coreJSON/source/core_json.c:1492-1566 | such a text is parsed to the steps of its path |
| `JsonQuery.TrailingSeparator` | tuya-iot-core-sdk/libraries/coreJSON/source/include/core_json.h:122-125 | a separator with nothing behind it is refused exactly when the query in front of it ends with a key or with a separator; otherwise the search answers as without it |
| `JsonQuery.LargestIndex` | tuya-iot-core-sdk/libraries/coreJSON/source/include/core_json.h:122-126 | an index is understood exactly up to 2147483639 |
| `JsonQuery.LooseQueries` | tuya-iot-core-sdk/libraries/coreJSON/source/core_json.c:1526-1556 | queries with a separator too many or too few that are understood, and one that is refused |
| `RemainingLength.SizeExact` | tuya-iot-core-sdk/libraries/coreMQTT/source/core_mqtt_serializer.c:429-462 | the size is that of the encoding exactly up to 268435455 |
| `RemainingLength.EncodeRemainingLength` | tuya-iot-core-sdk/libraries/coreMQTT/source/core_mqtt_serializer.c:466-495 | writes the encoding behind what was written before and nothing else |
| `RemainingLength.GetRemainingLength` | tuya-iot-core-sdk/libraries/coreMQTT/source/core_mqtt_serializer.c:708-756 | reads the length at the head of the incoming bytes, or reports the invalid length |
| `RemainingLength.ReadEncoded` | tuya-iot-core-sdk/libraries/coreMQTT/source/core_mqtt_serializer.c:466-756 | reading an encoding gives its number back, whatever follows |
| `RemainingLength.DecodedExact` | tuya-iot-core-sdk/libraries/coreMQTT/source/core_mqtt_serializer.c:708-756 | a number is read exactly when the bytes start with its encoding: overlong, longer than needed and truncated encodings are refused (section 2.2.3 of MQTT 3.1.1) |
| `RemainingLength.EncodedPrefixFree` | tuya-iot-core-sdk/libraries/coreMQTT/source/core_mqtt_serializer.c:466-495 | no encoding is the beginning of another one's |
| `RemainingLength.EncodedDigits` | tuya-iot-core-sdk/libraries/coreMQTT/source/core_mqtt_serializer.c:466-495 | seven bits of the number in each byte, lowest first, the top bit set in all bytes but the last, and no byte too many |
| `RemainingLength.EncodedBounds` | tuya-iot-core-sdk/libraries/coreMQTT/source/core_mqtt_serializer.c:466-756 | the bounds of table 2.4 of MQTT 3.1.1, and two malformed lengths |
| `PublishPacket.GetPublishPacketSize` | tuya-iot-core-sdk/libraries/coreMQTT/source/core_mqtt_serializer.c:1841-1878 | success exactly when there is a topic and the whole packet, header included, is at most 268435455 bytes; then both sizes are exact |
| `PublishPacket.SizeLimit` | tuya-iot-core-sdk/libraries/coreMQTT/source/core_mqtt_serializer.c:535-610 | of the packets whose remaining length the standard allows, exactly those with one of the five largest lengths are refused |
| `PublishPacket.RefusedAlthoughAllowed` | tuya-iot-core-sdk/libraries/coreMQTT/source/core_mqtt_serializer.c:535-610 | there is such a packet for each of the five lengths |
| `PublishPacket.EncodeString` | tuya-iot-core-sdk/libraries/coreMQTT/source/core_mqtt_serializer.c:499-531 | length and text behind what was written before |
| `PublishPacket.PublishFlags` | tuya-iot-core-sdk/libraries/coreMQTT/source/core_mqtt_serializer.c:625-668 | the first byte says quality of service, DUP and retain |
| `PublishPacket.SerializePublishCommon` | tuya-iot-core-sdk/libraries/coreMQTT/source/core_mqtt_serializer.c:614-706 | writes exactly the packet, or exactly its header, and leaves the rest of the buffer |
| `PublishPacket.SerializePublish` | tuya-iot-core-sdk/libraries/coreMQTT/source/core_mqtt_serializer.c:1882-1963 | all error cases; on success the buffer starts with the packet, otherwise it is unchanged |
| `PublishPacket.SerializePublishHeader` | tuya-iot-core-sdk/libraries/coreMQTT/source/core_mqtt_serializer.c:1967-2046 | all error cases; the header written followed by the payload is the one-shot packet |
| `PublishPacket.GetIncomingPacketTypeAndLength` | tuya-iot-core-sdk/libraries/coreMQTT/source/core_mqtt_serializer.c:2344-2405 | no data, a failed receive, a malformed head, or the type with the length whose encoding stands behind it |
| `PublishPacket.ProcessPublishFlags` | tuya-iot-core-sdk/libraries/coreMQTT/source/core_mqtt_serializer.c:838-887 | refuses exactly quality of service 3; otherwise the flags are what they were made from |
| `PublishPacket.SaysUnique` | tuya-iot-core-sdk/libraries/coreMQTT/source/core_mqtt_serializer.c:1220-1310 | flags and data say at most one message and identifier |
| `PublishPacket.DeserializePublish` | tuya-iot-core-sdk/libraries/coreMQTT/source/core_mqtt_serializer.c:1220-1310 | returns the message the packet says, refuses exactly the packets that say none (section 3.3 of MQTT 3.1.1) |
| `PublishPacket.PublishRoundTrip` | tuya-iot-core-sdk/libraries/coreMQTT/source/core_mqtt_serializer.c:1220-1310 | what was written is what is read: type, remaining length, quality of service, DUP, retain, topic, identifier and payload |
| `PublishPacket.WireRoundTrip` | tuya-iot-core-sdk/libraries/coreMQTT/source/core_mqtt_serializer.c:614-706 | what was read is written back to the same bytes, and may be sent unless its topic is empty or DUP is set at QoS 0 |
| `PublishPacket.ReadButNeverSent` | tuya-iot-core-sdk/libraries/coreMQTT/source/core_mqtt_serializer.c:1220-1310 | both exceptions occur |
| `PublishPacket.FirstByte` | tuya-iot-core-sdk/libraries/coreMQTT/source/core_mqtt_serializer.c:625-668 | of a written packet in numbers: type 3, quality of service 0, 1 or 2 in bits 1 and 2, DUP in bit 3, retain in bit 0 |
| `PublishPacket.SaidFlags` | tuya-iot-core-sdk/libraries/coreMQTT/source/core_mqtt_serializer.c:838-887 | the same of a packet that is read |
| `PublishPacket.DataLayout` | tuya-iot-core-sdk/libraries/coreMQTT/source/core_mqtt_serializer.c:614-706 | length, topic, identifier and payload byte by byte, high bytes first |
| `PublishPacket.PacketLayout` | tuya-iot-core-sdk/libraries/coreMQTT/source/core_mqtt_serializer.c:614-706 | where they start, behind two to five bytes |
| `PublishPacket.ExamplePacket` | tuya-iot-core-sdk/libraries/coreMQTT/source/core_mqtt_serializer.c:614-1310 | a packet at quality of service 1 and one at 2, written and read |
| `Base64.Encode` | tuya-iot-core-sdk/utils/base64.c:51-113 | all error cases with the size announced; on success the encoding (section 4 of RFC 4648) and a zero |
| `Base64.PutTail` | tuya-iot-core-sdk/utils/base64.c:94-107 | the padded last group |
| `Base64.Check` | tuya-iot-core-sdk/utils/base64.c:125-174 | the first pass accepts exactly base64 text with line breaks and spaces in legal places, and counts symbols and padding |
| `Base64.Unpack` | tuya-iot-core-sdk/utils/base64.c:182-199 | the second pass with its 32-bit accumulator writes exactly the bytes of all complete groups |
| `Base64.Decode` | tuya-iot-core-sdk/utils/base64.c:118-202 | all error cases with the size announced; on success the decoded bytes and nothing else |
| `Base64.ShiftIn` | tuya-iot-core-sdk/utils/base64.c:188 | no bit that counts is pushed out of the 32-bit accumulator |
| `Base64.SizeExact` | tuya-iot-core-sdk/utils/base64.h:70-74 | the size announced is always enough, and is the number of bytes written exactly when nothing but padding stands behind the last complete group |
| `Base64.RoundTrip` | tuya-iot-core-sdk/utils/base64.c:51-202 | decoding an encoding gives the bytes back, however it has been laid out with line breaks and spaces, and the announced size is the exact one |
| `Base64.EncodedLayout` | tuya-iot-core-sdk/utils/base64.c:51-113 | the encoding itself is well laid out |
| `Base64.IncompleteGroup` | tuya-iot-core-sdk/utils/base64.c:170-199 | a text of two letters is accepted, room is announced for it, nothing is written |
| `Base64.ReEncoded` | tuya-iot-core-sdk/utils/base64.c:51-202 | encoding the decoded bytes gives the symbols back exactly when there are only complete groups and no bits set that padding cuts off |
| `Base64.Alphabet` | tuya-iot-core-sdk/utils/base64.c:18-28 | the alphabet of table 1 of RFC 4648 |
| `Base64.GroupDigits` | tuya-iot-core-sdk/utils/base64.c:82-92 | three bytes and the four digits written for them are the same number of 24 bits |
| `Base64.Vectors` | tuya-iot-core-sdk/utils/base64.c:51-113 | the test vectors of section 10 of RFC 4648 |
| `Base64.ProperExactly` | tuya-iot-core-sdk/utils/base64.c:125-174 | the symbols that are taken are letters of the alphabet and then at most two equal signs |
| `HttpBody.Response.MoveBytes` | tuya-iot-core-sdk/libraries/coreHTTP/source/core_http_client.c:916 | the overlapping move copies the old source bytes |
| `HttpBody.Response.OnBody` | tuya-iot-core-sdk/libraries/coreHTTP/source/core_http_client.c:857-930 | one body callback does one step: piece moved up behind the body unless it is there, cursor behind the piece |
| `HttpBody.StepCollects` | tuya-iot-core-sdk/libraries/coreHTTP/source/core_http_client.c:857-930 | a step appends the piece as it came in, and leaves everything from the cursor on as the wire delivered it |
| `HttpBody.RunCollects` | tuya-iot-core-sdk/libraries/coreHTTP/source/core_http_client.c:857-930 | over every sequence of arrivals and pieces, each at or behind the cursor: the body is the concatenation of the pieces as received, and nothing at or behind the cursor has been altered (section 4.1 of RFC 7230) |
| `AesTables.SBoxByInverse` | tuya-iot-core-sdk/libraries/mbedtls/library/aes.c:122-158 | the substitution table is the affine map of the multiplicative inverse in GF(2^8), section 5.1.1 of FIPS 197 |
| `AesTables.SBoxInverse` | tuya-iot-core-sdk/libraries/mbedtls/library/aes.c:253-289 | the reverse table undoes the forward table |
| `AesTables.InvSBoxInverse` | tuya-iot-core-sdk/libraries/mbedtls/library/aes.c:253-289 | and the other way round |
| `AesCipher.TimesIsMul` | tuya-iot-core-sdk/libraries/mbedtls/library/aes.c:424-425 | repeated doubling is multiplication in GF(2^8) |
| `AesCipher.MixInverse` | tuya-iot-core-sdk/libraries/mbedtls/library/aes.c:867-888 | InvMixColumns undoes MixColumns |
| `AesCipher.ForwardTables` | tuya-iot-core-sdk/libraries/mbedtls/library/aes.c:477-492 | an entry of a forward table is a column of MixColumns applied to the substituted byte |
| `AesCipher.ReverseTables` | tuya-iot-core-sdk/libraries/mbedtls/library/aes.c:494-506 | the same for the reverse tables |
| `AesCipher.ForwardWord` | tuya-iot-core-sdk/libraries/mbedtls/library/aes.c:842-864 | four table entries and the round key are SubBytes, MixColumns and AddRoundKey of a column |
| `AesCipher.ReverseWord` | tuya-iot-core-sdk/libraries/mbedtls/library/aes.c:867-888 | four reverse entries and the round key are InvSubBytes, InvMixColumns and AddRoundKey of a column |
| `AesBlock.ForwardRound` | tuya-iot-core-sdk/libraries/mbedtls/library/aes.c:842-864 | one macro round on four words is one round of section 5.1 of FIPS 197 |
| `AesBlock.ReverseRound` | tuya-iot-core-sdk/libraries/mbedtls/library/aes.c:867-888 | one macro round is one round of the equivalent inverse cipher, section 5.3.5 of FIPS 197 |
| `AesBlock.Encrypt` | tuya-iot-core-sdk/libraries/mbedtls/library/aes.c:895-959 | the unrolled loop on words and tables computes the cipher of FIPS 197 |
| `AesBlock.Decrypt` | tuya-iot-core-sdk/libraries/mbedtls/library/aes.c:975-1039 | the loop computes the equivalent inverse cipher |
| `AesBlock.MeetInTheMiddle` | tuya-iot-core-sdk/libraries/mbedtls/library/aes.c:975-1039 | after i rounds of decryption the state is that of the encryption at the mirrored place |
| `AesBlock.CipherInverse` | tuya-iot-core-sdk/libraries/mbedtls/library/aes.c:895-1039 | decryption under the reversed, unmixed round keys undoes encryption, for whatever round keys |
| `AesKeys.ExpandStep` | tuya-iot-core-sdk/libraries/mbedtls/library/aes.c:581-690 | the three kinds of words the key expansion computes are those of section 5.2 of FIPS 197 |
| `AesKeys.Context.SetkeyEnc` | tuya-iot-core-sdk/libraries/mbedtls/library/aes.c:581-690 | for 128, 192 and 256 bits the context holds the expanded key and its number of rounds; any other length is refused and changes nothing |
| `AesKeys.Context.SetkeyDec` | tuya-iot-core-sdk/libraries/mbedtls/library/aes.c:697-762 | the context holds the reversed schedule with the inner round keys unmixed |
| `AesKeys.UnmixedWord` | tuya-iot-core-sdk/libraries/mbedtls/library/aes.c:741-750 | looking substituted bytes up in the reverse tables unmixes a round key word |
| `AesKeys.Context.EncryptBlock` | tuya-iot-core-sdk/libraries/mbedtls/library/aes.c:1054-1086 | a context with an encryption schedule encrypts under its key |
| `AesKeys.Context.DecryptBlock` | tuya-iot-core-sdk/libraries/mbedtls/library/aes.c:1054-1086 | a context with a decryption schedule decrypts under its key |
| `AesKeys.AesInverse` | tuya-iot-core-sdk/libraries/mbedtls/library/aes.c:581-1039 | for every key of 128, 192 or 256 bits and every block, decryption under mbedtls_aes_setkey_dec inverts encryption under mbedtls_aes_setkey_enc |
| `AesBytes.ScheduleBytes` | tuya-iot-core-sdk/libraries/mbedtls/library/aes.c:581-690 | byte k of word n of the schedule of every key: the key, or byte k of word n - nk plus byte k of word n - 1; at multiples of nk that is the substituted byte (k + 1) mod 4 plus a power of x when k is 0, and in 256-bit keys the substituted byte k in the middle (section 5.2 of FIPS 197) |
| `AesBytes.ShiftedByte` | tuya-iot-core-sdk/libraries/mbedtls/library/aes.c:842-864 | row r moves by r columns |
| `AesBytes.SubstitutedByte` | tuya-iot-core-sdk/libraries/mbedtls/library/aes.c:842-864 | every byte is substituted |
| `AesBytes.MixedByte` | tuya-iot-core-sdk/libraries/mbedtls/library/aes.c:842-864 | columns are multiplied by the polynomial of section 5.1.3 of FIPS 197 |
| `AesBytes.KeyedByte` | tuya-iot-core-sdk/libraries/mbedtls/library/aes.c:842-864 | byte r of round key word c is added in row r of column c |
| `AesVectors.Vector128` | tuya-iot-core-sdk/libraries/mbedtls/library/aes.c:581-959 | the ciphertext of appendix C.1 of FIPS 197, by way of every word of the key and every state |
| `AesVectors.Vector192` | tuya-iot-core-sdk/libraries/mbedtls/library/aes.c:581-959 | the ciphertext of appendix C.2 |
| `AesVectors.Vector256` | tuya-iot-core-sdk/libraries/mbedtls/library/aes.c:581-959 | the ciphertext of appendix C.3 |
| `AesGenerate.PowersAndLogs` | tuya-iot-core-sdk/libraries/mbedtls/library/aes.c:435-443 | the loop computes the powers of the generator and a logarithm of every power |
| `AesGenerate.RoundConstants` | tuya-iot-core-sdk/libraries/mbedtls/library/aes.c:445-452 | the round constants are the powers of x |
| `AesGenerate.SubstitutionBoxes` | tuya-iot-core-sdk/libraries/mbedtls/library/aes.c:454-472 | the generated substitution boxes are the constant tables |
| `AesGenerate.LogMul` | tuya-iot-core-sdk/libraries/mbedtls/library/aes.c:425 | multiplication by way of logarithms is multiplication in GF(2^8), for the factors of the reverse tables |
| `AesGenerate.ReverseEntry` | tuya-iot-core-sdk/libraries/mbedtls/library/aes.c:494-499 | a generated entry of the first reverse table is that of the table |
| `AesXts.TimesX` | tuya-iot-core-sdk/libraries/mbedtls/library/aes.c:1202-1215 | the tweak step on two 64-bit words multiplies by x in GF(2^128) |
| `AesXts.StolenInverse` | tuya-iot-core-sdk/libraries/mbedtls/library/aes.c:1287-1320 | decrypting a stolen tail with the two last tweaks swapped gives both blocks back |
| `AesXts.XtsInverse` | tuya-iot-core-sdk/libraries/mbedtls/library/aes.c:1220-1324 | decryption inverts encryption for every length of at least 16 bytes, given only that one block function undoes the other |
| `AesXts.Steal` | tuya-iot-core-sdk/libraries/mbedtls/library/aes.c:1287-1320 | the tail takes bytes of the block in front of it, which is replaced |
| `AesXts.CryptXts` | tuya-iot-core-sdk/libraries/mbedtls/library/aes.c:1220-1324 | the loop over the data unit, ciphertext stealing included, for every permitted length |
| `AesXts.XtsContext.SetkeyEnc` | tuya-iot-core-sdk/libraries/mbedtls/library/aes.c:765-813 | halves of the key for blocks and tweak; only 256 and 512 bits are accepted |
| `AesXts.XtsContext.SetkeyDec` | tuya-iot-core-sdk/libraries/mbedtls/library/aes.c:815-838 | for decryption only the schedule of the first half is turned round |
| `AesXts.XtsContext.Crypt` | tuya-iot-core-sdk/libraries/mbedtls/library/aes.c:1220-1324 | exactly the encrypted or decrypted data unit is written; a length out of range is refused and changes nothing |
| `AesXts.XtsUnitInverse` | tuya-iot-core-sdk/libraries/mbedtls/library/aes.c:765-1324 | for every key, data unit number and length from one block on, XTS-AES decryption gives the data unit back |
| `AesXts.XtsBlockLayout` | tuya-iot-core-sdk/libraries/mbedtls/library/aes.c:1220-1285 | under the first half of the key every whole block is masked, encrypted and masked again, with the data unit number encrypted under the second half times x^j |
| `AesXts.XtsTailLayout` | tuya-iot-core-sdk/libraries/mbedtls/library/aes.c:1287-1320 | the tail, filled up from the encrypted block in front of it, is encrypted in its place, and the bytes taken stand at the end |
| `AesStreams.IncrementFromValue` | tuya-iot-core-sdk/libraries/mbedtls/library/aes.c:1499-1501 | the carry loop on the first i bytes adds one to the number they stand for |
| `AesStreams.IncrementValue` | tuya-iot-core-sdk/libraries/mbedtls/library/aes.c:1499-1501 | the carry loop adds one modulo 2^128 |
| `AesStreams.AdvanceValue` | tuya-iot-core-sdk/libraries/mbedtls/library/aes.c:1499-1501 | the counter after j blocks is the first one plus j modulo 2^128 |
| `AesStreams.IncrementCounter` | tuya-iot-core-sdk/libraries/mbedtls/library/aes.c:1499-1501 | the loop over the counter array is that increment |
| `AesStreams.CryptCtr` | tuya-iot-core-sdk/libraries/mbedtls/library/aes.c:1475-1516 | byte k of the output is byte k of the input masked with byte (from + k) mod 16 of the encrypted counter, and the state left behind continues the stream there |
| `AesStreams.CtrPieces` | tuya-iot-core-sdk/libraries/mbedtls/library/aes.c:1475-1516 | one call over two pieces does what two calls do |
| `AesStreams.CtrTwice` | tuya-iot-core-sdk/libraries/mbedtls/library/aes.c:1475-1516 | the same part of the key stream applied twice gives the text back |
| `AesStreams.CtrStart` | tuya-iot-core-sdk/libraries/mbedtls/library/aes.c:1475-1516 | a fresh counter with offset 0 is a valid state |
| `AesStreams.CtrFormula` | tuya-iot-core-sdk/libraries/mbedtls/library/aes.c:1475-1516 | byte k is masked with the byte in its place of the encrypted counter, which is the big-endian number c plus the number of blocks in front modulo 2^128 |
| `AesStreams.CounterExample` | tuya-iot-core-sdk/libraries/mbedtls/library/aes.c:1499-1501 | a carry through one byte, most significant byte first |
| `AesStreams.CryptCfb128` | tuya-iot-core-sdk/libraries/mbedtls/library/aes.c:1331-1385 | the loop computes the byte-wise feedback mode and leaves the register and offset for the next call |
| `AesStreams.CfbPieces` | tuya-iot-core-sdk/libraries/mbedtls/library/aes.c:1331-1385 | a call over two pieces does what two calls do |
| `AesStreams.CfbInverse` | tuya-iot-core-sdk/libraries/mbedtls/library/aes.c:1331-1385 | decryption inverts encryption and leaves the same register |
| `AesStreams.CfbAnyCalls` | tuya-iot-core-sdk/libraries/mbedtls/library/aes.c:1331-1385 | decryption gives the plaintext back under any two ways of cutting the text into calls |
| `AesStreams.CfbBlock` | tuya-iot-core-sdk/libraries/mbedtls/library/aes.c:1331-1385 | on a whole block it is the plaintext masked with the encrypted register, which then is the ciphertext (section 6.3 of NIST SP 800-38A) |
| `CJsonParse.WrongDigitRead` | tuya-iot-core-sdk/utils/cJSON.c:550-635 | an escape with a wrong digit in its first four is refused exactly when fewer than six bytes are left in the string, and stands for the zero character otherwise |
| `CJsonParse.WrongSecondRefused` | tuya-iot-core-sdk/utils/cJSON.c:636-650 | in the second half of a surrogate pair a wrong digit is always refused |
| `CJsonParse.RightDigits` | tuya-iot-core-sdk/utils/cJSON.c:550-583 | four right digits are read as their value |
| `CJsonParse.WrongDigitAccepted` | tuya-iot-core-sdk/utils/cJSON.c:587-834 | a whole document with two wrong digits is parsed |
| `CJsonStrings.UnitRead` | tuya-iot-core-sdk/utils/cJSON.c:587-635 | four digits that spell a UTF-16 unit other than a surrogate are read as that code point |
| `CJsonStrings.PairRead` | tuya-iot-core-sdk/utils/cJSON.c:636-650 | for every code point above U+FFFF the two escapes of its UTF-16 surrogates are read as that code point |
| `CJsonStrings.SurrogatePaired` | tuya-iot-core-sdk/utils/cJSON.c:600-650 | an escape of a surrogate is accepted only as the first half of a pair, and what is read is the code point of that pair |
| `CJsonStrings.SpelledStringParsed` | tuya-iot-core-sdk/utils/cJSON.c:708-834 | a string of any code points, each as UTF-8, as a short escape, or as one or two hexadecimal escapes, is read as the UTF-8 encoding of the code points |
| `CJsonParser.LiteralFits` | tuya-iot-core-sdk/utils/cJSON.c:587-834 | the bytes written for a hexadecimal escape fit into the memory measured by counting backslashes, whatever its digits are |
| `CJsonParser.PutUtf8` | tuya-iot-core-sdk/utils/cJSON.c:652-699 | writes the UTF-8 encoding of the code point from its last byte on |
| `CJsonParser.ParseBuffer.SkipSpace` | tuya-iot-core-sdk/utils/cJSON.c:973-991 | the offset moves to the first byte above the space character, or to the end |
| `CJsonParser.ParseBuffer.FindClose` | tuya-iot-core-sdk/utils/cJSON.c:720-745 | finds the closing quote and measures the memory the content needs |
| `CJsonParser.ParseBuffer.CopyContent` | tuya-iot-core-sdk/utils/cJSON.c:754-834 | the copying loop stays inside the measured memory and yields exactly the unescaped content, or fails exactly when an escape is refused |
| `CJsonParser.ParseBuffer.ParseString` | tuya-iot-core-sdk/utils/cJSON.c:708-834 | the string at the offset, with the offset behind it; fails exactly when there is none |
| `CJsonParser.ParseBuffer.ParseNumber` | tuya-iot-core-sdk/utils/cJSON.c:276-350 | the number at the offset, at most 63 bytes of it converted |
| `CJsonParser.ParseBuffer.ParseValue` | tuya-iot-core-sdk/utils/cJSON.c:1222-1274 | accepts, and returns, exactly what recursive descent accepts; offset and depth are those of the descent |
| `CJsonParser.ParseBuffer.ParseContainer` | tuya-iot-core-sdk/utils/cJSON.c:1351-1613 | the loops over the items of an array or an object build the list the descent describes, and refuse the 1001st level |
| `CJsonParser.ParseBuffer.ParseName` | tuya-iot-core-sdk/utils/cJSON.c:1563-1586 | the name and colon of an item |
| `CJsonParser.ParseWithOpts` | tuya-iot-core-sdk/utils/cJSON.c:1010-1087 | the tree of the whole text, with a byte order mark and surrounding white space, and with the end of the text required or not |
| `CJsonRoundTrip.StringParsed` | tuya-iot-core-sdk/utils/cJSON.c:708-956 | a printed string is read back, all escapes included |
| `CJsonRoundTrip.NumberParsed` | tuya-iot-core-sdk/utils/cJSON.c:276-350 | a printed number is read back |
| `CJsonRoundTrip.ValueParsed` | tuya-iot-core-sdk/utils/cJSON.c:1222-1274 | a printed value is read back wherever it stands and ends where its text ends |
| `CJsonRoundTrip.ContainerParsed` | tuya-iot-core-sdk/utils/cJSON.c:1351-1613 | a printed array or object is read back item by item |
| `CJsonRoundTrip.PrintedParsed` | tuya-iot-core-sdk/utils/cJSON.c:1222-1727 | for every tree, compact or formatted: parsing the printed text gives the tree back exactly when its containers are nested at most 1000 deep, and fails otherwise |
| `CJsonRoundTrip.CompactExample` | tuya-iot-core-sdk/utils/cJSON.c:1277-1727 | the compact text of one object with an array and a string |
| `CJsonRoundTrip.FormattedExample` | tuya-iot-core-sdk/utils/cJSON.c:1277-1727 | its formatted text |
| `CJsonDocuments.StringRead` | tuya-iot-core-sdk/utils/cJSON.c:708-834 | every string of ECMA-404 is read as the UTF-8 encoding of what it spells |
| `CJsonDocuments.NumberRead` | tuya-iot-core-sdk/utils/cJSON.c:276-350 | every number of ECMA-404 of at most 63 bytes is converted as a whole |
| `CJsonDocuments.ValueRead` | tuya-iot-core-sdk/utils/cJSON.c:1222-1613 | every value of ECMA-404, with any white space and spelling, is read as the tree it stands for and ends where its text ends |
| `CJsonDocuments.DocumentRead` | tuya-iot-core-sdk/utils/cJSON.c:994-1613 | every JSON text whose numbers have at most 63 bytes, with a byte order mark or not, is parsed to its tree exactly when it is nested at most 1000 deep, and refused otherwise |
| `CJsonDocuments.ValueClosed` | tuya-iot-core-sdk/utils/cJSON.c:708-1613 | every array or object that is accepted ends with its own closing bracket, every string with its quote |
| `CJsonDocuments.ArraysRefused` | tuya-iot-core-sdk/utils/cJSON.c:1351-1443 | an array with the wrong closing bracket, with a comma too many or one too few is refused |
| `CJsonDocuments.ObjectsRefused` | tuya-iot-core-sdk/utils/cJSON.c:1506-1613 | an object with a key alone, without a colon or with a comma in its place is refused |
| `CJsonPrinter.PrintBuffer.Ensure` | tuya-iot-core-sdk/utils/cJSON.c:383-468 | when it succeeds there is room and the text so far is in the buffer, moved or not; it succeeds whenever the buffer may hold that much |
| `CJsonPrinter.PrintBuffer.UpdateOffset` | tuya-iot-core-sdk/utils/cJSON.c:471-481 | the offset moves behind the text that ends at the first zero |
| `CJsonPrinter.PrintBuffer.PrintNumber` | tuya-iot-core-sdk/utils/cJSON.c:484-547 | appends the number and moves the offset itself |
| `CJsonPrinter.PrintBuffer.CountEscapes` | tuya-iot-core-sdk/utils/cJSON.c:864-888 | counts exactly the bytes that escaping adds |
| `CJsonPrinter.PrintBuffer.PrintStringPtr` | tuya-iot-core-sdk/utils/cJSON.c:837-956 | appends the quoted and escaped string and leaves the offset to the caller |
| `CJsonPrinter.PrintBuffer.PrintValue` | tuya-iot-core-sdk/utils/cJSON.c:1277-1348 | appends the rendering of the value, whatever buffer it started with |
| `CJsonPrinter.PrintBuffer.PrintArray` | tuya-iot-core-sdk/utils/cJSON.c:1445-1504 | appends the rendering of the array and restores the depth |
| `CJsonPrinter.PrintBuffer.PrintObject` | tuya-iot-core-sdk/utils/cJSON.c:1616-1727 | appends the rendering of the object and restores the depth |
| `CJsonPrinter.Print` | tuya-iot-core-sdk/utils/cJSON.c:1097-1159 | the text is the rendering of the tree; fails only when it does not fit below the largest size |
| `CJsonPrinter.PrintBuffered` | tuya-iot-core-sdk/utils/cJSON.c:1172-1200 | for every size of the first buffer the text is the same |
| `CJsonPrinter.PrintPreallocated` | tuya-iot-core-sdk/utils/cJSON.c:1202-1219 | in the buffer of the caller: the same text or failure, and success whenever there are two bytes more than the text |

## Left out

- SessionProperties.AtMostOnceDelivery: does not cover applications that tell the engine themselves of an incoming QoS 2 PUBLISH or of an acknowledgement for one, because such a call can record an acknowledgement that was never sent; all other direct calls are covered, and the record invariants cover these too.
- SessionProperties.DeliveryLegal: has the same restriction for the same reason.
- SenderProperties.SenderLegal: does not cover applications that tell the engine themselves of a PUBREC they got or a PUBREL they sent, for the same reason.
- PublishEngine.Context.constructor: the transport, callbacks and network buffer that `MQTT_Init` stores are not modelled.
- ClientSession.HandleIncomingPublish: a packet that cannot be deserialised changes nothing and is no event of the model; `PublishPacket` says which these are.
- ClientSession.HandlePublishAcks: the same, and that the application is told of an acknowledgement is not recorded.
- ClientSession.Publish: serialisation of the header is an input here and proved in `PublishPacket`; the send loop is one write that succeeds or fails.
- JsonStrict.JsonExactly: strings of strict documents leave out the escape of the zero character and unpaired surrogate escapes, which the code refuses on purpose.
- JsonSearch.SearchAgrees: keys are compared as the bytes of the text, so a key written with escapes matches only a query with the same escapes, as in the code.
- CJsonParser.ParseBuffer.ParseContainer: the loops of `parse_array` and `parse_object`, which differ in brackets and names only, are one method with a parameter.
- CJsonParser.ParseBuffer.ParseNumber: how much of a text is converted follows `strtod` for decimal numbers; the floating point value is not modelled, a number is its text.
- CJsonRoundTrip.PrintedParsed: numbers are printed texts that convert back completely; NaN, infinities, raw items, references and null strings are not trees of the model.
- CJsonDocuments.DocumentRead: does not cover numbers of more than 63 bytes, of which the code converts a part, nor the escape of the zero character and unpaired surrogate escapes.
- CJsonPrinter.PrintBuffer.Ensure: copies the whole old buffer; without a reallocation function the code copies `offset + 1` bytes, which reads one byte past a first buffer of size zero. A failing allocation is not modelled.
- CJsonPrinter.PrintBuffer.PrintNumber: formatting of the double is left out; the text is given and at most 25 bytes long.
- AesXts.XtsBlockLayout: is about encryption; what decryption does follows from `XtsUnitInverse`.
- AesXts.CryptXts: input is a sequence of bytes, so input and output overlapping in memory is not modelled.
- AesXts.XtsContext.Crypt: has the same restriction.
- AesStreams.CryptCtr: has the same restriction, and its stream block is one that earlier calls, or a fresh counter, left behind.
- AesStreams.CryptCfb128: has the same restriction.
- AesCipher.ForwardTables: the round tables are functions with the formula of `aes_gen_tables`, not the constant arrays of the ROM build; the S-boxes, powers, logarithms and round constants are compared with the generating code.
- HttpBody.Response.OnBody: the header parser is not part of this model; its body callbacks are any pieces at or behind the cursor.
- NULL-pointer checks, logging, mutexes, allocation failure and error-string tables.
- Time, the transport, sockets, TLS and storage: inputs of the model where their outcome matters.
- The width of `size_t`; 16-bit ids and topic lengths, 32-bit accumulators, the `int` size limit of print buffers and the 31-bit array index are modelled.
- The record count of ten is any positive number; state bitmaps are sets.
- Linked list nodes of cJSON are values; error positions after a failed parse are not specified.
- CONNECT, SUBSCRIBE, UNSUBSCRIBE, PING and the simple acknowledgement packets: smaller layouts of the same kind.
- Keep-alive, timeouts, `MQTT_ProcessLoop` and the reading of whole packets around the handlers.
- AES in CBC, OFB, CFB8 and ECB chaining, hardware acceleration, self tests and wiping of keys.
- cJSON item manipulation, minifying, comparison and duplication.
- The rest of coreHTTP, the daemon in `src/`, the endpoint, DNS and link code of the SDK, its demos, logging and timers.
