# wiretest: a model of a BACnet/IP test harness and its sensor simulation

The repository holds a hand-written BACnet/IP protocol stack for wire tests and a sensor that simulates its
readings. This project models both in Dafny and proves what they are for.

The main result is end to end. A client's calls are encoded, framed, decoded, parsed, performed by the simulated
server, answered, framed, decoded and interpreted; `EndToEnd.SessionRefines` says the replies are exactly those of
plain property maps and tables of 16 priorities called directly, in every server mode and with every scripted
failure, as long as the datagrams fit the receive buffers; `LongAnswers.ReadRefinesExactly` says a ReadProperty fails
otherwise. `LossyCalls` carries this over to a network that loses, delays, repeats and reorders. Around it stand the
grammar of constructed values, the priority arbiter over whole runs, invoke ids and resends, a workstation's threads
under any interleaving, the event services, and the Simulation.

| file | what it models |
|---|---|
| `Octets`, `Tags`, `Constructed` | octets and Python's failures, clause 20.2 tags, balanced values and the depth scans |
| `Network` | BVLL (Annex J), NPDU (clause 6.2), the frame decoder as a class |
| `Requests`, `Multiple`, `Snapshots`, `Indexed` | ReadProperty, WriteProperty, Error; ReadPropertyMultiple, its round trip, and the ACKs of any device |
| `Server`, `ServerObject` | the simulated server as functions of its state, and as the object that changes in place |
| `Arbiter`, `Runs` | the server's invariant; histories, resends and the order of writes over whole runs |
| `Relinquish`, `Records` | what each encoded write does to a slot; what the server writes down, and how it declines |
| `Direct`, `EndToEnd`, `LongAnswers` | the plain objects, the wire that refines them, and answers too long for it |
| `Client`, `Protocol`, `LossyCalls` | waiting, invoke ids and retries; client and server on a lossy network, and the plain objects behind it |
| `BitStrings`, `Primitives`, `Discovery` | application data and arrays; Who-Is and I-Am |
| `Notifications`, `Summaries`, `Workstation` | event notifications, GetEventInformation, the threaded workstation |
| `Simulation` | the sensor's ramp and counters |
| `Layout` | every message octet by octet |
| `Completion` | the runs in which nothing is lost: a request gets its answer |
| `Totality`, `Witnesses` | which failures escape the parsers; inputs on which the code departs from its own texts |

A function that may raise returns an `Outcome`: a value or a Python exception. A value is *balanced* when it is a run of
whole tags in which every opening tag is closed. Loops and objects of the source are methods and classes here, each tied
by its postcondition to a function that the theorems are about.

Where the code and its own texts disagree, the model follows the code. Each point has its exact condition and an
input on which it happens:

- The parsers promise None for malformed input, but an application BOOLEAN with a declared length above 255 makes
  `read_tag` raise ValueError, which they do not catch (`Totality.WriteParserTotal`, `Totality.WriteParserEscape`). The
  parser of the ReadPropertyMultiple-ACK also raises IndexError on a ComplexACK of two octets
  (`Totality.AckParserTotal`, `Witnesses.AckParserEscapes`). The other parsers have their own conditions
  (`Totality.ReadParserTotal`, `Totality.ReadValueTotal`, `Totality.AnnouncementTotal`,
  `Witnesses.OtherParsersEscape`).
- One response of a single octet makes every later request of a workstation raise (`Workstation.RequestRaises`,
  `Workstation.StuckForGood`, `Witnesses.OneOctetStops`).
- A WriteProperty with a priority above 16 stores the value before it fails, so the Present_Value no longer agrees
  with the slots (`Arbiter.FrameAgreement`, `Witnesses.PriorityPastLast`).
- `write_requests` is documented as every WriteProperty that arrived; one met by a scripted reject, abort or silence
  is not kept (`Arbiter.WritesLogged`, `Witnesses.RejectedWriteNotKept`).
- The NPDU decoder skips a vendor id that the encoder never writes (`Network.PayloadSurvives`,
  `Witnesses.VendorIdLost`).
- The bit string encoder puts any length into the tag octet, so 25 to 32 bits, and more than 48, do not read back
  (`Primitives.DecodeBitString`, `Witnesses.TwentyFiveBits`).
- An answer 256 requests old is taken for the current one (`Protocol.TakenIfCongruent`, `Witnesses.StaleAnswer`).

## Model

| member | source | states |
|---|---|---|
| `Tags.ReadTag` | wiretest/codec.py:690-716 | A tag that is read starts inside the data and ends strictly after its start, even when its declared length overruns the data: the measure of every decode loop. |
| `Tags.ReadTagLocal` | wiretest/codec.py:690-716 | A tag that ends inside a piece of a message reads the same wherever that piece occurs, and a tag of the message that ends inside the piece is a tag of the piece. |
| `Tags.ReadPrimitive` | wiretest/codec.py:298-337 | Reading an encoded primitive gives its tag number, class and contents and ends exactly after it, for all three length forms. |
| `Tags.ReadWritten` | wiretest/codec.py:690-716 | Whatever tag number a device writes, in the initial octet or extended, and in whichever of the four forms of the length, the tag is read back (clause 20.2.1). |
| `Tags.ReadOtherWritten` | wiretest/codec.py:700-716 | Extended opening and closing tags are read back; an application BOOLEAN gives its length as its value in every form, and ValueError exactly above 255. |
| `Tags.UnsignedRoundTrip` | wiretest/codec.py:291-295 | The value of the contents octets is the value encoded. |
| `Tags.UnsignedShortest` | wiretest/codec.py:291-295 | No shorter octet string has the same value (clause 20.2.4). |
| `Constructed.ConstructedEnd` | wiretest/services.py:111-117 | The depth loop returns the position after the matching closing tag, or fails, as the one scan all five loops are tied to. |
| `Constructed.ConstructedBody` | wiretest/services.py:120-129 | The depth loop returns the octets inside the tags and the position after them, as that scan says. |
| `Constructed.ScanIsGrammar` | wiretest/services.py:111-129 | For every octet string and start, the depth counter stops at a closing tag exactly when the recursive-descent grammar has a balanced run up to it, and fails exactly when it has none. |
| `Constructed.ScanWalk` | wiretest/codec.py:730-747 | Inside any message, before a closing tag, the scan stops right after a value exactly when the value is balanced. |
| `Constructed.BodyOfBalanced` | wiretest/codec.py:908-919 | The contents recovered are the value if and only if it is balanced, and then the position is just past its closing tag. |
| `Constructed.BodyIsBalanced` | wiretest/codec.py:908-919 | Whatever a scan returns as contents is balanced. |
| `Constructed.EncodedIsBalanced` | wiretest/codec.py:313-337 | Every forest of nested tags, primitives and BOOLEANs encodes to balanced octets. |
| `Constructed.EncodedBody` | wiretest/services.py:120-129 | For every such forest the scans return exactly its encoding, whatever comes before and after. |
| `Network.Frame.constructor` | wiretest/codec.py:572-585 | A frame starts with every field blank. |
| `Network.Frame.Receive` | wiretest/codec.py:572-586 | After decoding, the fields are those of the pure decoder; the same failures are raised. |
| `Network.Frame.Decode` | wiretest/codec.py:588-603 | The BVLL header and originating address are assigned, or the datagram refused, as in the pure decoder. |
| `Network.Frame.DecodeOctets` | wiretest/codec.py:600-624 | The position-moving NPDU decoder assigns the fields the pure decoder gives. |
| `Network.Frame.DecodeMessage` | wiretest/codec.py:616-623 | Hop count, message type, vendor id and payload as in the pure decoder. |
| `Network.Frame.DecodeAddressFields` | wiretest/codec.py:606-615 | DNET/DADR and SNET/SADR, in that order, as in the pure decoder. |
| `Network.BvllHeader` | wiretest/codec.py:220-222 | Every BVLL message is X'81', its function, the length of the whole datagram in two octets, and the body. |
| `Network.ControlOctet` | wiretest/codec.py:266-274 | The control octet has exactly the bits of what is present, the others zero. |
| `Network.DatagramLayout` | wiretest/codec.py:220-284 | A datagram, plain or forwarded, octet by octet: BVLL header, version, control, DNET and DADR, SNET and SADR, hop count, message type, payload. |
| `Network.OtherMessages` | wiretest/codec.py:588-595 | Only functions X'04', X'09', X'0A' and X'0B' have an NPDU; of others the header and the data are decoded, and nothing of what is no BVLL message. |
| `Network.FrameInvertsEncoding` | wiretest/codec.py:262-284 | For all 16 presence combinations, any address lengths, any payload and plain or forwarded BVLL, decoding recovers every part, the payload up to a vendor id. |
| `Network.PayloadSurvives` | wiretest/codec.py:618-623 | The decoder finds the payload whole if and only if there is no proprietary message type or no payload to lose octets from. |
| `Network.Transported` | wiretest/peer.py:148-153 | A request arrives whole over a straight or relayed path, marked as expecting a reply, and its reply comes back whole, not so marked, with DNET/DADR equal to the request's SNET/SADR (clause 6.5.4). |
| `Requests.ObjectIdRoundTrip` | wiretest/codec.py:287-288 | Packing and unpacking an object identifier are inverse. |
| `Requests.ParseWriteProperty` | wiretest/codec.py:891-925 | The parser with its depth loop returns exactly what the pure parser returns, whose value ends where the scan of `Constructed.ScanIsGrammar` does. |
| `Requests.ReadPropertyValue` | wiretest/codec.py:730-747 | Both loops together return the contents of the first [3], None, or the failure. |
| `Requests.ReadRequestRoundTrip` | wiretest/codec.py:359-363 | Both request parsers recover object, property and optional array index. |
| `Requests.WriteRequestRoundTrip` | wiretest/codec.py:366-376 | The parser recovers object, property, value and both optionals, absent ones as None, if and only if the value is balanced. |
| `Requests.ReadAckRoundTrip` | wiretest/codec.py:388-391 | The client finds the value in an ACK, indexed or not, if and only if it is balanced. |
| `Requests.ValuesPassOver` | wiretest/codec.py:785-794 | Among the values of an Error, context-tagged primitives and opening and closing tags count for nothing. |
| `Requests.ErrorRoundTrip` | wiretest/codec.py:883-888 | Error class and code come back from the PDU. |
| `Requests.ParsedValueBalanced` | wiretest/codec.py:891-925 | Every value a parsed write carries is balanced and no longer than the request. |
| `Multiple.ReadAccessSpecification` | wiretest/codec.py:411-422 | The loop appends exactly the production's octets. |
| `Multiple.ReadAccessSpecifications` | wiretest/codec.py:806-821 | The server's loop returns the parsed members, or the failure. |
| `Multiple.BuildReadMultipleAck` | wiretest/codec.py:526-541 | The nested loops produce exactly the ACK of the results. |
| `Multiple.BuildEntries` | wiretest/codec.py:533-539 | The inner loop: one entry per property, its value or the error. |
| `Multiple.ParseReadPropertyMultipleAck` | wiretest/services.py:95-177 | For any answer, or none, the client returns the map of the pure parser if it is a ComplexACK of the service, None for any other or for a caught failure, and lets the rest escape. |
| `Multiple.SnapshotContents` | wiretest/services.py:144-177 | For pairwise distinct objects the map has one entry for each requested object and property, the served octets or the error, and no others. |
| `Snapshots.ReadMultipleRoundTrip` | wiretest/peer.py:354-363 | Server parser, ACK encoder and client parser together give the snapshot of the objects, for any specifications; a repeated object gets its last list and indexes are dropped, as in the code. |
| `Indexed.IndexedResults` | wiretest/services.py:144-177 | From an ACK of any device, with array indexes, errors of any class and code and repeated objects, each result is under its object, property and index. |
| `Arbiter.InitialInvariant` | wiretest/peer.py:216-233 | A server made with balanced values satisfies the invariant. |
| `Arbiter.MadeServer` | wiretest/peer.py:216-233 | From the arguments alone: a new server has them, is online, with empty logs and slots, and its Relinquish_Defaults are the Present_Values given; it satisfies the invariant. |
| `Arbiter.WinningIsHighest` | wiretest/peer.py:395-396 | The value chosen is that of the lowest-numbered non-empty slot, or the default when all are empty, and no other value is. |
| `Arbiter.FrameEffect` | wiretest/peer.py:275-319 | Only a write that reaches the write logic changes anything but the logs, and asking whether its value is NULL cannot fail. |
| `Arbiter.WritesLogged` | wiretest/peer.py:289-294 | A parsed WriteProperty is kept in write_requests, answered or not, exactly unless a scripted reject, abort or silence comes first. |
| `Arbiter.FrameKeepsInvariant` | wiretest/peer.py:275-398 | After any frame, garbled, refused or raising, except a write command past priority 16 that reaches the write logic: every Present_Value agrees with its slots and everything stored is balanced. |
| `Arbiter.FrameAgreement` | wiretest/peer.py:365-398 | After any frame a commandable Present_Value agrees with its slots if and only if the frame is not an accepted write of another value to it past priority 16. |
| `Runs.RunKeepsInvariant` | wiretest/peer.py:275-319 | The invariant holds over every run of frames and reconfigurations in which no frame commands a priority past 16; an answer that raises ends the run. |
| `Runs.SlotStep` | wiretest/peer.py:391-396 | Any frame changes a slot exactly when it is acknowledged as a commanded write there. |
| `Runs.SlotsFollowHistory` | wiretest/peer.py:365-398 | Over every run, to its end or to an answer that raises, slot p holds the value of the latest acknowledged write at p, empty if it was a NULL (section 19.2). |
| `Runs.SlotsFromStart` | wiretest/peer.py:224-227 | From the start of a server, a slot with no acknowledged write is empty. |
| `Runs.PresentValueFollowsSlots` | wiretest/peer.py:224-227 | Over every run without a command past priority 16 the Present_Value is the lowest-numbered non-empty slot, or the Relinquish_Default captured at start. |
| `Runs.UnwrittenServesDefault` | wiretest/peer.py:224-226 | After any run from its making without a command past priority 16, a commandable object with all slots empty serves the Present_Value it was given. |
| `Relinquish.NullRelinquishes` | wiretest/peer.py:391-396 | After an acknowledged encoded NULL at priority p, slot p is empty and no other slot has changed. |
| `Relinquish.ValueTakesSlot` | wiretest/peer.py:391-396 | After an acknowledged write at p of any other primitive, a BOOLEAN or a constructed value, slot p holds it and no other slot has changed. |
| `Relinquish.NullElsewhere` | wiretest/peer.py:372-378 | A NULL written to a property that is not commanded is acknowledged and changes nothing (clause 19.2.1). |
| `Records.ReadsRecorded` | wiretest/peer.py:275-341 | The whole state after an encoded ReadProperty, in every mode and with every scripted failure: what is kept, noted or counted, and nothing else changes. |
| `Records.MultiplesRecorded` | wiretest/peer.py:354-359 | A ReadPropertyMultiple is kept with what it asks for, or counted while offline, and nothing else changes. |
| `Records.WritesRecorded` | wiretest/peer.py:280-299 | The whole log after an encoded WriteProperty, in every mode and with every scripted failure. |
| `Records.ReadsDeclined` | wiretest/peer.py:275-352 | The octets with which a ReadProperty is declined: scripted failures, whole arrays refused, unknown objects and properties. |
| `Records.WritesDeclined` | wiretest/peer.py:275-390 | The octets with which a WriteProperty is declined: scripted failures, unknown objects, writes refused or not allowed. |
| `Records.NotServed` | wiretest/peer.py:102-105 | What is not decoded, and network layer messages, are not answered and change nothing. |
| `Records.ReadsServed` | wiretest/peer.py:304-329 | The ACK a ReadProperty is served with: of that object and property, the Device under its own instance, NULL if malformed. |
| `Records.MultiplesServed` | wiretest/peer.py:354-363 | A ReadPropertyMultiple is answered with what is stored of all it asks for, unless the server is offline. |
| `Records.WritesServed` | wiretest/peer.py:365-398 | A WriteProperty that is let through is acknowledged, or raises if it commands a priority past 16. |
| `Runs.ResendChangesNothing` | wiretest/client.py:148-162 | A second delivery of the same frame changes nothing but the logs, and a write gets the same answer again. |
| `Runs.AtLeastOnce` | wiretest/client.py:90-101 | Any positive number of deliveries leaves objects and priority arrays as one does. |
| `Runs.WritesCommute` | wiretest/peer.py:365-398 | Commanded writes at different priorities or of different objects have the same effect in either order, in any mode. |
| `ServerObject.ApplicationElements` | wiretest/codec.py:773-782 | The splitting loop returns the elements of the pure splitter. |
| `ServerObject.SimulatedServer.constructor` | wiretest/peer.py:216-233 | A new server is online with empty slots, its defaults captured from the Present_Values. |
| `ServerObject.SimulatedServer.Answer` | wiretest/peer.py:275-288 | New state and answer are those of the function the theorems are about; scripted failures come first. |
| `ServerObject.SimulatedServer.AnswerRequest` | wiretest/peer.py:289-319 | Logging, offline handling and dispatch, as that function has them. |
| `ServerObject.SimulatedServer.ReadProperty` | wiretest/peer.py:304-318 | A listed object's read, or the Device object's. |
| `ServerObject.SimulatedServer.ReadValueOf` | wiretest/peer.py:309-318 | The read is logged and answered with the value or UNKNOWN_PROPERTY. |
| `ServerObject.SimulatedServer.ReadSpecial` | wiretest/peer.py:321-352 | A special answer with its state change, or none, nothing changed, and then the plain read is the answer. |
| `ServerObject.SimulatedServer.ReadMultiple` | wiretest/peer.py:354-363 | The specifications are logged and every property answered. |
| `ServerObject.SimulatedServer.AnswerWhoIs` | wiretest/peer.py:133-146 | The limits gathered tag by tag decide as the pure function does. |
| `ServerObject.SimulatedServer.WriteProperty` | wiretest/peer.py:365-398 | Storing first and commanding afterwards gives the state and answer of the pure function, a failing priority included. |
| `EndToEnd.VisibleOfAbs` | wiretest/peer.py:391-396 | Present_Values looked up in the table of priorities are the cached ones the server serves. |
| `EndToEnd.CallRefines` | wiretest/peer.py:275-398 | One call over the wire, straight or relayed, whose datagrams fit the receive buffers, gives the reply of the same call on plain maps and priority tables, in every mode and with every scripted failure, and the objects of the server are then those. |
| `EndToEnd.SessionRefines` | wiretest/client.py:104-122 | Any sequence of ReadProperty, WriteProperty and ReadPropertyMultiple calls, with mode and scripted failures changed between them, gives exactly the replies of the plain objects called directly, whenever these say that each call is admissible and its datagrams fit. |
| `LongAnswers.ReadRefinesExactly` | wiretest/endpoint.py:34-48 | A ReadProperty over the wire gives the reply of the plain objects if and only if its datagrams fit the 2048-octet receive buffers. |
| `LongAnswers.CutAckLost` | wiretest/codec.py:730-747 | A ReadProperty-ACK cut anywhere does not give its value. |
| `Client.Client.WaitFor` | wiretest/endpoint.py:56-70 | Whatever is waited for, the first match among frames kept and then arriving is returned; if none, nothing kept matches. |
| `Client.Client.Request` | wiretest/client.py:90-101 | The answer is the first match of everything that arrives over all attempts, and nothing is sent after it. |
| `Client.Client.WhoIs` | wiretest/client.py:164-180 | The frame found is the first I-Am of the instance in everything that arrives over all attempts, and nothing is sent after it. |
| `Client.WhoIsTakes` | wiretest/client.py:176-177 | Of the I-Ams, exactly the decoded ones announcing the Device of that instance are taken, and nothing that is no I-Am. |
| `Client.RequestTakes` | wiretest/client.py:157-161 | Exactly the decoded response APDUs with the invoke id of the request are taken; one of a single octet raises. |
| `Client.FirstIsFirst` | wiretest/endpoint.py:56-70 | What is returned is the first arriving datagram that decodes and matches, with none failing before it; none is returned exactly when all decode and none matches. |
| `Protocol.AnswerCarriesInvokeId` | wiretest/peer.py:275-398 | Whatever a confirmed request is answered with, in any state, is a response with its invoke id. |
| `Protocol.TurnAnswers` | wiretest/peer.py:92-106 | Whatever datagram the server sends back for a request, however long either is and wherever it is cut, the client takes it for an answer to just that invoke id. |
| `Protocol.InvokeIdSafety` | wiretest/client.py:148-162 | Over every run with loss, delay, duplication and reordering, long datagrams cut, what request n returns answers a delivered request m congruent to n modulo 256, and n itself if it is at most 255 requests old. |
| `Protocol.TakenIfCongruent` | wiretest/client.py:156-161 | A waiting client takes an arriving answer if and only if it answers a request congruent to its own modulo 256. |
| `Protocol.ResendsAreHarmless` | wiretest/client.py:90-101 | With mode and failures fixed, however many resends get through leaves the objects as one delivery does, and none leaves the server unchanged. |
| `Protocol.NextSends` | wiretest/client.py:90-101 | A request is sent once and resent one by one; it stops waiting when an answer is taken, otherwise only after 1 + retries sends. |
| `Protocol.SendsBounded` | wiretest/client.py:90-101 | Over every run no request is sent more than 1 + retries times. |
| `Completion.CallCompletes` | wiretest/client.py:148-163 | A call whose request and answer each get through once returns exactly the answer the server made of that request, and is over; without an answer it goes on waiting. |
| `LossyCalls.LossyRunRefines` | wiretest/client.py:148-162 | Over every run of admissible calls whose datagrams fit, with loss, delay, duplication, reordering and resends, the serving thread lives and the objects of the server are the plain objects after the delivered calls. |
| `LossyCalls.LossyAnswersRefine` | wiretest/client.py:148-162 | What the client makes of the datagram call n returns is the reply of the plain objects at a moment the call was delivered, to call n itself or to one at least 256 calls older. |
| `BitStrings.PackBits` | wiretest/codec.py:490-496 | Setting masked bits in a zeroed buffer one by one gives the count of unused bits and the packed octets. |
| `BitStrings.UnpackBits` | wiretest/alarm.py:323-328 | The loop over octets and masks returns the bits, less the unused ones. |
| `BitStrings.BitsRoundTrip` | wiretest/codec.py:849-854 | Unpacking inverts packing for any number of bits. |
| `Primitives.SignedRoundTrip` | wiretest/codec.py:448-452 | Two's complement contents give back the integer. |
| `Primitives.SignedShortest` | wiretest/codec.py:448-452 | No shorter two's complement has the same value. |
| `Primitives.PrimitivesRoundTrip` | wiretest/codec.py:824-858 | The decoder inverts the unsigned, enumerated, signed, octet string, object identifier, boolean and null encoders, whatever follows. |
| `Primitives.OthersDecode` | wiretest/codec.py:824-858 | REAL, Double, text and other application tags with any contents, and None for context-tagged and constructed data and for no octets. |
| `Primitives.BitStringRoundTrip` | wiretest/codec.py:490-497 | An encoded bit string reads back as its contents if and only if it has at most 24 bits or 33 to 48; past 2032 bits the encoder raises. |
| `Primitives.DecodeBitString` | wiretest/codec.py:849-854 | The decoder gives back the bits if and only if the size is one of those, whatever follows. |
| `Primitives.ElementsOfList` | wiretest/codec.py:773-782 | Splitting a list of primitives gives exactly those primitives. |
| `Primitives.ElementsCover` | wiretest/codec.py:773-782 | The elements of any octets, put together, are those octets. |
| `Primitives.IndexedReads` | wiretest/peer.py:335-352 | An encoded ReadProperty of element 0 is answered with the count, of k with the k-th element, past the end with INVALID_ARRAY_INDEX, and is noted in array_reads. |
| `Primitives.WholeRead` | wiretest/peer.py:305-333 | Without an index it is answered with the whole value, or with an Abort if whole arrays of it are refused. |
| `Primitives.ArrayReads` | wiretest/peer.py:335-352 | Of a list stored in the server the client reads the count, each element, and without an index exactly the elements read one by one put together. |
| `Discovery.WhoIsAnswer` | wiretest/peer.py:133-138 | A Who-Is is answered with I-Am exactly when the instance is in range, or no range is given. |
| `Discovery.IAmRoundTrip` | wiretest/codec.py:719-727 | The instance an I-Am announces is read back. |
| `Discovery.AnnouncedInstance` | wiretest/codec.py:719-727 | Of the object an I-Am names, a Device's instance is announced and no other object's. |
| `Discovery.FindsDevice` | wiretest/peer.py:133-138 | The datagram of a Who-Is for one instance is answered by the server of that instance, unless offline, with a datagram that decodes to an I-Am recognised as it, and by no other. |
| `Notifications.EventNotification.constructor` | wiretest/alarm.py:195-209 | Every field starts unset. |
| `Notifications.EventNotification.Decode` | wiretest/alarm.py:195-245 | The field-setting loop leaves the fields of the pure decoder, or raises as it does. |
| `Notifications.SkipConstructed` | wiretest/alarm.py:169-175 | The depth loop returns the position after the matching closing tag, as the other scans do. |
| `Notifications.ParsePieces` | wiretest/alarm.py:211-245 | The decoder takes any list of fields, stamps and nested values one by one, nested values skipped exactly. |
| `Notifications.OtherStamps` | wiretest/alarm.py:178-188 | A time stamp in any form but dateTime is passed over whole and has no date and time. |
| `Notifications.OthersPassedOver` | wiretest/alarm.py:213-221 | Application-tagged primitives and stray closing tags among the parameters change nothing. |
| `Notifications.NotificationRoundTrip` | wiretest/alarm.py:128-162 | Every field encoded is recovered, confirmed or not, with or without text; an ACK_NOTIFICATION leaves ack-required and from-state unset. |
| `Summaries.ParseEventSummaries` | wiretest/alarm.py:267-320 | The loops return the list and flag of the pure parser, or its failure. |
| `Summaries.CollectStamps` | wiretest/alarm.py:299-306 | Three time stamps in a row, each in any form. |
| `Summaries.CollectNumbers` | wiretest/alarm.py:309-317 | Numbers up to the closing tag. |
| `Summaries.EventSummariesRoundTrip` | wiretest/alarm.py:267-320 | For every list of summaries with time stamps in any mix of forms, the parser returns the same list and more-events flag from the clause 13.12 encoding. |
| `Summaries.OutsidePassedOver` | wiretest/alarm.py:279-285 | Outside the list only [0] opening and the primitive [1] count. |
| `Summaries.InsidePassedOver` | wiretest/alarm.py:286-319 | Inside the list, tags that are none of those it knows change nothing. |
| `Workstation.Workstation.constructor` | wiretest/workstation.py:37-52 | Nothing received, nothing requested. |
| `Workstation.Workstation.Receive` | wiretest/workstation.py:80-94 | The receiver's locked section: a notification kept, a response queued, or nothing. |
| `Workstation.Workstation.Acknowledge` | wiretest/workstation.py:88-90 | A SimpleACK with the notification's own invoke id, if answering. |
| `Workstation.Workstation.BeginRequest` | wiretest/workstation.py:121-124 | The next invoke id is taken and what is queued for it dropped. |
| `Workstation.Workstation.TakeResponse` | wiretest/workstation.py:127-136 | The first queued response with the invoke id is taken out and returned. |
| `Workstation.MarkSeparates` | wiretest/workstation.py:113-116 | Of the notifications there are later, those before a mark were there when it was taken, and every one from it on came in since. |
| `Workstation.Workstation.FindNotification` | wiretest/workstation.py:96-107 | The first matching notification from the index on, or none matches. |
| `Workstation.FirstFor` | wiretest/workstation.py:131-134 | The queue position found has the invoke id and none before it does; none is found only if none has it. |
| `Workstation.OthersKept` | wiretest/workstation.py:124-124 | What is kept, in order, is exactly the queued responses with another invoke id. |
| `Workstation.HandedOnce` | wiretest/workstation.py:120-140 | Under any interleaving, whatever frames come in, a response is handed to at most one request, only to one with its invoke id that began before it came in; if it answers request m of the workstation, older or newer, m is congruent to n modulo 256, and is n if they are at most 255 apart. |
| `Workstation.RequestRaises` | wiretest/workstation.py:120-125 | A request raises before it is sent if and only if a response of one octet is queued or it is too long for a datagram; the queue keeps that response. |
| `Workstation.StuckForGood` | wiretest/workstation.py:120-136 | Once a response of one octet is queued it stays, whatever happens, and every later request raises before it is sent. |
| `Workstation.NotificationsGrow` | wiretest/workstation.py:82-87 | Notifications only grow by appending, each one brought in by a received frame. |
| `Workstation.EachAcknowledgedOnce` | wiretest/workstation.py:66-94 | With answering left on, each confirmed notification is acknowledged exactly once with its own invoke id, in order; left off, none is. |
| `Workstation.ReceivedWhole` | wiretest/workstation.py:80-94 | A frame received by a ready receiver: a notification is appended, a response queued, nothing else changed. |
| `Workstation.AcknowledgeSends` | wiretest/workstation.py:88-90 | The acknowledgement sends the pending invoke id if answering, and the receiver is ready again. |
| `Workstation.EveryNotificationKept` | wiretest/workstation.py:80-87 | Over every run the notifications are those there were and every one taken in since, in order. |
| `Workstation.EveryNotificationAcknowledged` | wiretest/workstation.py:82-90 | Over every run with answering on, the SimpleACKs are the invoke ids of the confirmed notifications taken in, in order, the last perhaps pending; with answering off there is none. |
| `Completion.ServerAnswerHanded` | wiretest/workstation.py:118-140 | From any coherent state, a request served on any path whose answer is received is handed exactly the frame of the server's answer, whatever else is queued; without an answer it is handed nothing. |
| `Completion.DeviceAnswerHanded` | wiretest/workstation.py:118-140 | So is the answer of any other device with the request's invoke id. |
| `Completion.AnsweringAsTold` | wiretest/workstation.py:83-90 | Whether a notification is acknowledged depends on the flag when the SimpleACK is due, not when the notification came in. |
| `Completion.ReceiverStops` | wiretest/workstation.py:66-94 | A notification that cannot be decoded ends the receiver: over every later run nothing more is kept, queued or acknowledged. |
| `Workstation.EncodedEventKept` | wiretest/alarm.py:261-264 | Every encoded event notification, confirmed or not, straight or relayed, is kept with all its fields. |
| `Workstation.NotificationOctets` | wiretest/alarm.py:261-264 | A frame is a notification exactly if it is confirmed service 2 or unconfirmed service 3. |
| `Simulation.Simulation.constructor` | main.py:208-210 | The readings at start. |
| `Simulation.Simulation.SensorTick` | main.py:269-295 | The field-by-field tick gives the state of the pure step. |
| `Simulation.ReadingClosedForm` | main.py:286-291 | Over every schedule of ticks and faults the reading is a triangle wave at 7 plus the healthy seconds acted on, within 18.0 and 26.0. |
| `Simulation.FrozenWhileBroken` | main.py:279-291 | While the wire is broken the reading keeps its last good value and Reliability says so. |
| `Simulation.ReliabilityFollowsWire` | main.py:279-285 | From any state Reliability is the wire as the latest tick in a new second found it, and unchanged if none did. |
| `Simulation.SameSecond` | main.py:276-278 | A second tick in the same second changes nothing. |
| `Simulation.CountersClosedForm` | main.py:292-295 | With every second acted on, the counters stay at their closed forms, faults or not. |
| `Simulation.CountersFromStart` | main.py:292-295 | From the start: floor(s/3) mod 2 and floor(s/4) mod 3 + 1. |
| `Simulation.RampRecovers` | main.py:286-291 | From any reading, each healthy second acted on brings it 0.5 nearer to 17.6..26.4 and it stays inside: exactly after distance/0.5 such seconds, rounded up. |
| `Layout.PrimitiveLayout` | wiretest/codec.py:298-337 | The tag and length octets of a primitive in its three forms. |
| `Layout.ObjectIdLayout` | wiretest/codec.py:287-288 | Ten bits of type and 22 of instance in four octets. |
| `Layout.ReadRequestLayout` | wiretest/codec.py:359-363 | The octets of a ReadProperty request. |
| `Layout.WriteRequestLayout` | wiretest/codec.py:366-376 | The octets of a WriteProperty request. |
| `Layout.ReadAckLayout` | wiretest/codec.py:388-391 | The octets of a ReadProperty-ACK. |
| `Layout.ShortAnswersLayout` | wiretest/codec.py:433-445 | The octets of SimpleACK, Reject, Abort and Error. |
| `Layout.ReadMultipleRequestLayout` | wiretest/services.py:136-141 | The octets of a ReadPropertyMultiple request. |
| `Layout.ReadMultipleAckLayout` | wiretest/codec.py:526-541 | The octets of its ACK, values and errors. |
| `Layout.WhoIsLayout` | wiretest/codec.py:398-402 | The octets of a Who-Is, with and without limits. |
| `Layout.IAmLayout` | wiretest/codec.py:405-408 | The octets of an I-Am: identifier, 1476, no segmentation, vendor. |
| `Layout.DeviceLayout` | wiretest/peer.py:121-131 | The Device object serves its name under 77 and its identifier under 75 and nothing else. |
| `Layout.EventLayout` | wiretest/alarm.py:128-162 | Every parameter of an event notification in order, text and event values included. |
| `Totality.ValueErrorIsOversize` | wiretest/codec.py:714-715 | read_tag raises ValueError exactly for an application BOOLEAN whose declared length is above 255. |
| `Totality.WriteParserTotal` | wiretest/codec.py:891-925 | The parser returns None or a request if and only if the first unreadable tag is not such a BOOLEAN read before the request is complete; nothing but ValueError escapes. |
| `Totality.WriteParserEscape` | wiretest/codec.py:891-925 | A request of eight octets on which ValueError escapes. |
| `Totality.ReadParserTotal` | wiretest/codec.py:750-770 | Without and with the array index, the parser returns None or a request if and only if none of the tags it reads, the identifier being right, is the first unreadable one and such a BOOLEAN; nothing but ValueError escapes. |
| `Totality.ReadValueTotal` | wiretest/codec.py:730-747 | Exactly: the octets of the first [3] up to its closing tag, None if there is no [3] and every tag is readable, else the failure of the first tag that is not. |
| `Totality.AnnouncementTotal` | wiretest/codec.py:719-727 | It raises ValueError exactly on an I-Am whose first tag is such a BOOLEAN, struct.error exactly on one whose four-octet length is cut short, and nothing else. |
| `Totality.AckParserTotal` | wiretest/services.py:95-177 | For every answer, exactly: IndexError on a ComplexACK without a service octet, ValueError if it is of the service and its first unreadable tag is such a BOOLEAN with no wrong object identifier before it, else None or a map. |
| `Witnesses.PriorityPastLast` | wiretest/peer.py:391-396 | A WriteProperty at priority 17 after which the Present_Value does not agree with the slots. |
| `Witnesses.RejectedWriteNotKept` | wiretest/peer.py:280-294 | A WriteProperty met by a scripted reject that write_requests does not hold. |
| `Witnesses.VendorIdLost` | wiretest/codec.py:618-623 | A proprietary message of three octets of which one is left. |
| `Witnesses.TwentyFiveBits` | wiretest/codec.py:490-497 | 25 bits that decode to others. |
| `Witnesses.StaleAnswer` | wiretest/client.py:156-161 | A run from a fresh client in which request 257 returns the answer to request 1. |
| `Witnesses.AckParserEscapes` | wiretest/services.py:95-177 | Two answers the client takes, on which IndexError and ValueError escape. |
| `Witnesses.OtherParsersEscape` | wiretest/codec.py:719-770 | Inputs on which the request parser, the value reader and the I-Am reader raise. |
| `Witnesses.OneOctetStops` | wiretest/workstation.py:120-125 | A datagram of seven octets after which a workstation never sends a request. |

## Left out

- `EndToEnd.SessionRefines`: asks that every datagram fits the 2048-octet receive buffers of the sockets, that written values are balanced and priorities at most 16, and that a value read by element is a run of balanced elements. Each is needed: `LongAnswers.ReadRefinesExactly`, `Constructed.BodyOfBalanced` and `Arbiter.FrameAgreement` are exact about three of them. A ReadPropertyMultiple-ACK cut between two results reads as a smaller map.
- `Snapshots.ReadMultipleRoundTrip`: states what the code does for a repeated object (its last list) and for array indexes (dropped), which is less than clause 15.7 asks.
- `Protocol.InvokeIdSafety`: datagrams from other devices are not part of this client's network, as they are of the workstation's.
- `LossyCalls.LossyAnswersRefine`: asks of every delivered call what `EndToEnd.SessionRefines` asks, its datagrams fitting included.
- `Primitives.BitStringRoundTrip`: is about the application form; the context form of a bit string appears only where the event services use it, with 3 and 4 bits.
- `Workstation.HandedOnce`: starts from decoded frames; a datagram the decoder fails on ends the receiver like any other failure there. Of a response that nothing is known of but its invoke id, it does not say which request it answers.
- `Tags.UnsignedShortest`: the choice of the shortest of four lengths is a case split, not a loop over (1, 2, 3, 4).
- Single setters and getters (`StoreValue`, `NextInvokeId`, `Nudge`, `mark`) have no row of their own.
- Sockets, threads, clocks and time-outs: a network is what arrives, a time-out is the end of what arrives, a critical section is one step.
- Callable property values and overridden write hooks: values are octets and the default hooks accept.
- UTF-8 and IEEE 754: text and REALs are octets; the Simulation counts tenths of a degree, so the 1.1 nudges are exact where Python's are rounded.
- `decoded_values`, COV notifications, ReadRange, files, object creation, life safety, landing calls and lighting commands: their decoders are the same kind of loop over tags, and most encoders have no decoder to relate to.
- BVLC-Result, broadcast and foreign-device tables, network listings and `describe()`: table layouts and text.
- The CAS BACnet Stack, its callbacks and the console: foreign code and terminal I/O.
- Test scripts, result records, process and control channels: no protocol behaviour.
