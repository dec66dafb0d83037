/** What the server writes down of the requests it gets, and the octets it answers with when it declines: every field of
    its log after an encoded request, in every mode and with every scripted failure. */
module Records {
  import opened Octets
  import opened Tags
  import opened Constructed
  import opened Network
  import opened Requests
  import opened Multiple
  import opened Snapshots
  import opened Server
  import opened Arbiter
  import Direct
  import EndToEnd

  /** The failure scripted for an object, which counts only online. */
  function ScriptedFor(s: State, o: ObjectId): Option<Failure> {
    if s.script.mode == Online && o in s.script.failures then Some(s.script.failures[o]) else None
  }

  function CountOffline(log: Log): Log { log.(requestsWhileOffline := log.requestsWhileOffline + 1) }

  function CountSilent(log: Log): Log { log.(silentRequests := log.silentRequests + 1) }

  /** A ReadProperty: counted if it is met by silence or the server is offline; kept if a listed object is read as it
      is, with a note if it is read by element; not kept if it is met by a reject, an abort or a malformed answer. */
  function LogAfterRead(s: State, o: ObjectId, property: U32, index: Option<U32>): Log {
    match ScriptedFor(s, o)
    case Some(FailReject) => s.log
    case Some(FailAbort) => s.log
    case Some(FailSilent) => CountSilent(s.log)
    case Some(FailMalformed) => s.log
    case None =>
      if s.script.mode == Offline then CountOffline(s.log)
      else if o !in s.objects then s.log
      else
        var record := ReadRecord(12, [(o, [property as nat])]);
        var read := s.log.(readRequests := s.log.readRequests + [record]);
        if index.Some? && s.config.arrayElements && property in s.objects[o]
        then read.(arrayReads := s.log.arrayReads + [(o, property as nat, index.value as nat)]) else read
  }

  lemma ReadsRecorded(s: State, invokeId: Octet, path: Path, o: ObjectId, property: U32, index: Option<U32>)
    requires WellFormed(s) && PathOk(path)
    ensures var f := RequestFrame(ReadRequest(invokeId, o, property, index), path);
            AnswerFrame(s, f).0 == s.(log := LogAfterRead(s, o, property, index))
  {
    hide ParseRead, ParseIndexedRead, ReadRequest, ReadDevice, RequestFrame, RejectPdu, AbortPdu, WellFormed,
         FailureFor, ElementAnswer, Elements, ReadAck, ReadError, ApplicationNull;
    EndToEnd.ReadFrame(invokeId, path, o, property, index);
    EndToEnd.FailureOfCall(s, RequestFrame(ReadRequest(invokeId, o, property, index), path), o);
  }

  /** A ReadPropertyMultiple: kept with what it asks for, or counted if the server is offline. */
  lemma MultiplesRecorded(s: State, invokeId: Octet, path: Path, specs: seq<Specification>)
    requires WellFormed(s) && PathOk(path)
    ensures var f := RequestFrame(ReadMultipleRequest(invokeId, specs), path);
            AnswerFrame(s, f).0
            == s.(log := if s.script.mode == Offline then CountOffline(s.log)
                         else s.log.(readRequests := s.log.readRequests + [ReadRecord(14, FoldMembers([], specs))]))
  {
    hide ReadSpecifications, Serve, FoldMembers, EncodeSpecifications, Npdu, EncodeResults, InRange, Slice, WellFormed;
    MembersRead(invokeId, specs);
  }

  lemma MembersRead(invokeId: Octet, specs: seq<Specification>)
    ensures var request := ReadMultipleRequest(invokeId, specs);
            ReadSpecifications(Slice(request, 4, |request|), 0, [], None) == Returned(FoldMembers([], specs))
  {
    hide ReadSpecifications, Serve, FoldMembers, ParseResults, Snapshot, EncodeResults;
    ReadMultipleRoundTrip(invokeId, specs, map[]);
  }

  /** A WriteProperty: kept unless a reject, an abort or silence meets it; silence and being offline are counted. */
  function LogAfterWrite(s: State, w: Write): Log {
    var kept := s.log.(writeRequests := s.log.writeRequests + [w]);
    match ScriptedFor(s, w.target)
    case Some(FailReject) => s.log
    case Some(FailAbort) => s.log
    case Some(FailSilent) => CountSilent(s.log)
    case _ => if s.script.mode == Offline then CountOffline(kept) else kept
  }

  lemma WritesRecorded(s: State, invokeId: Octet, path: Path, o: ObjectId, property: U32, value: Bytes,
                       priority: Option<U32>, index: Option<U32>)
    requires WellFormed(s) && PathOk(path) && Balanced(value)
    ensures var f := RequestFrame(WriteRequest(invokeId, o, property, value, priority, index), path);
            AnswerFrame(s, f).0.log
            == LogAfterWrite(s, Write(o, property, Widen(index), value, Widen(priority)))
  {
    hide ParseWrite, Balanced, RequestFrame, EndToEnd.EncodeCall, WriteRequest, IsNull, Perform, RejectPdu, AbortPdu,
         FailureFor;
    var c := Direct.WriteCall(o, property, value, priority, index);
    var f := RequestFrame(WriteRequest(invokeId, o, property, value, priority, index), path);
    EndToEnd.WriteFrame(invokeId, path, c);
    assert EndToEnd.EncodeCall(invokeId, c) == WriteRequest(invokeId, o, property, value, priority, index) by {
      EndToEnd.SameRequest(invokeId, c);
    }
    EndToEnd.FailureOfCall(s, f, o);
    ParsedNullKnown(f.payload);
    var w := ParseWrite(f.payload).value.value;
    PerformKeepsLog(LogWrite(s, Some(w)), f.payload[2], w, IsNull(value).value);
  }

  // -- answers that decline, octet by octet --------------------------------------------------

  lemma Codes(invokeId: Octet)
    ensures ReadError(invokeId, ERROR_CLASS_OBJECT, ERROR_CODE_UNKNOWN_OBJECT)
            == [0x50, invokeId, 12, 0x91, 1, 0x91, 31]
    ensures ReadError(invokeId, ERROR_CLASS_PROPERTY, ERROR_CODE_UNKNOWN_PROPERTY)
            == [0x50, invokeId, 12, 0x91, 2, 0x91, 32]
    ensures ReadError(invokeId, ERROR_CLASS_PROPERTY, ERROR_CODE_INVALID_ARRAY_INDEX)
            == [0x50, invokeId, 12, 0x91, 2, 0x91, 42]
    ensures WriteError(invokeId, ERROR_CLASS_OBJECT, ERROR_CODE_UNKNOWN_OBJECT)
            == [0x50, invokeId, 15, 0x91, 1, 0x91, 31]
    ensures WriteError(invokeId, ERROR_CLASS_PROPERTY, ERROR_CODE_WRITE_ACCESS_DENIED)
            == [0x50, invokeId, 15, 0x91, 2, 0x91, 40]
    ensures RejectPdu(invokeId, REJECT_REASON_UNRECOGNIZED_SERVICE) == [0x60, invokeId, 9]
    ensures AbortPdu(invokeId, ABORT_REASON_SEGMENTATION_NOT_SUPPORTED) == [0x71, invokeId, 4]
    ensures SimpleAck(invokeId, SERVICE_WRITE_PROPERTY) == [0x20, invokeId, 15]
  {
  }

  /** An encoded ReadProperty is declined exactly so: scripted reject and abort, a whole array refused, an object or a
      property the server does not have. */
  lemma ReadsDeclined(s: State, invokeId: Octet, path: Path, o: ObjectId, property: U32, index: Option<U32>)
    requires WellFormed(s) && PathOk(path)
    ensures var r := AnswerFrame(s, RequestFrame(ReadRequest(invokeId, o, property, index), path)).1;
            var scripted := ScriptedFor(s, o);
            && (scripted == Some(FailReject) ==> r == Returned(Some([0x60, invokeId, 9])))
            && (scripted == Some(FailAbort) ==> r == Returned(Some([0x71, invokeId, 4])))
            && (scripted == Some(FailSilent) || s.script.mode == Offline ==> r == Returned(None))
            && (scripted == None && s.script.mode != Offline ==>
                  && (o in s.objects && index.None? && (o, property) in s.script.wholeArraysRefused ==>
                        r == Returned(Some([0x71, invokeId, 4])))
                  && (o in s.objects && property !in s.objects[o]
                      && !(index.None? && (o, property) in s.script.wholeArraysRefused) ==>
                        r == Returned(Some([0x50, invokeId, 12, 0x91, 2, 0x91, 32])))
                  && (o !in s.objects && o != ObjectId(8, s.config.deviceInstance) && o != ObjectId(8, 0x3FFFFF) ==>
                        r == Returned(Some([0x50, invokeId, 12, 0x91, 1, 0x91, 31])))
                  && (o !in s.objects && (o == ObjectId(8, s.config.deviceInstance) || o == ObjectId(8, 0x3FFFFF))
                      && property != 75 && property != 77 ==>
                        r == Returned(Some([0x50, invokeId, 12, 0x91, 2, 0x91, 32]))))
  {
    hide ParseRead, ParseIndexedRead, ReadRequest, RequestFrame, RejectPdu, AbortPdu, WellFormed, FailureFor,
         ElementAnswer, Elements, ReadAck, ReadError, ApplicationNull, CharacterString, ApplicationObjectId;
    EndToEnd.ReadFrame(invokeId, path, o, property, index);
    EndToEnd.FailureOfCall(s, RequestFrame(ReadRequest(invokeId, o, property, index), path), o);
    Codes(invokeId);
  }

  /** And an encoded WriteProperty. */
  lemma WritesDeclined(s: State, invokeId: Octet, path: Path, o: ObjectId, property: U32, value: Bytes,
                       priority: Option<U32>, index: Option<U32>)
    requires WellFormed(s) && PathOk(path) && Balanced(value)
    ensures var r := AnswerFrame(s, RequestFrame(WriteRequest(invokeId, o, property, value, priority, index), path)).1;
            var scripted := ScriptedFor(s, o);
            var allowed := o in s.objects && if s.config.writable.None? then property in s.objects[o]
                                             else (o, property) in s.config.writable.value;
            && (scripted == Some(FailReject) ==> r == Returned(Some([0x60, invokeId, 9])))
            && (scripted == Some(FailAbort) ==> r == Returned(Some([0x71, invokeId, 4])))
            && (scripted == Some(FailSilent) || s.script.mode == Offline ==> r == Returned(None))
            && (scripted in {None, Some(FailMalformed)} && s.script.mode != Offline && o !in s.objects ==>
                  r == Returned(Some([0x50, invokeId, 15, 0x91, 1, 0x91, 31])))
            && (o in s.objects && s.script.mode == Refusing ==>
                  r == Returned(Some([0x50, invokeId, 15, 0x91, 2, 0x91, 40])))
            && (scripted in {None, Some(FailMalformed)} && s.script.mode == Online && o in s.objects && !allowed
                && !(Direct.Relinquishes(value) && s.config.commandable.Some?) ==>
                  r == Returned(Some([0x50, invokeId, 15, 0x91, 2, 0x91, 40])))
  {
    hide ParseWrite, Balanced, RequestFrame, EndToEnd.EncodeCall, WriteRequest, IsNull, RejectPdu, AbortPdu, SimpleAck,
         WriteError, FailureFor, Command, Direct.Relinquishes, SetProperty;
    var c := Direct.WriteCall(o, property, value, priority, index);
    var f := RequestFrame(WriteRequest(invokeId, o, property, value, priority, index), path);
    EndToEnd.WriteFrame(invokeId, path, c);
    assert EndToEnd.EncodeCall(invokeId, c) == WriteRequest(invokeId, o, property, value, priority, index) by {
      EndToEnd.SameRequest(invokeId, c);
    }
    EndToEnd.FailureOfCall(s, f, o);
    ParsedNullKnown(f.payload);
    Direct.NullOctets(value);
    Codes(invokeId);
  }

  /** What is not decoded, and what is a network layer message, is not answered and changes nothing. */
  lemma NotServed(s: State, f: Fields)
    requires WellFormed(s) && (!f.ok || f.networkMessage.Some?)
    ensures ServeFrame(s, f) == (s, Returned(None))
  {
    hide AnswerFrame;
  }

  // -- answers that serve ----------------------------------------------------------------------

  /** An encoded ReadProperty is served so: an ACK of that object and property with the value stored, the index left out
      unless elements are served; a malformed answer is an ACK of NULL; the Device object answers under its own instance
      even if asked for by the wildcard. */
  lemma ReadsServed(s: State, invokeId: Octet, path: Path, o: ObjectId, property: U32, index: Option<U32>)
    requires WellFormed(s) && PathOk(path) && s.script.mode != Offline
    ensures var r := AnswerFrame(s, RequestFrame(ReadRequest(invokeId, o, property, index), path)).1;
            var scripted := ScriptedFor(s, o);
            var device := ObjectId(8, s.config.deviceInstance);
            && (scripted == Some(FailMalformed) && o in s.objects ==>
                  r == Returned(Some(ReadAck(invokeId, o, property, None, [0x00]))))
            && (scripted == None && o in s.objects && property in s.objects[o]
                && (if index.Some? then !s.config.arrayElements else (o, property) !in s.script.wholeArraysRefused) ==>
                  r == Returned(Some(ReadAck(invokeId, o, property, None, s.objects[o][property]))))
            && (scripted in {None, Some(FailMalformed)} && o !in s.objects
                && (o == device || o == ObjectId(8, 0x3FFFFF)) ==>
                  && (property == 77 ==>
                        r == Returned(Some(ReadAck(invokeId, device, 77, None, CharacterString(s.config.objectName)))))
                  && (property == 75 ==>
                        r == Returned(Some(ReadAck(invokeId, device, 75, None, ApplicationObjectId(device))))))
  {
    hide ParseRead, ParseIndexedRead, ReadRequest, RequestFrame, RejectPdu, AbortPdu, WellFormed, FailureFor,
         ElementAnswer, Elements, ReadAck, ReadError, CharacterString, ApplicationObjectId;
    EndToEnd.ReadFrame(invokeId, path, o, property, index);
    EndToEnd.FailureOfCall(s, RequestFrame(ReadRequest(invokeId, o, property, index), path), o);
  }

  /** An encoded ReadPropertyMultiple, unless the server is offline: an ACK of what is stored of all it asks for. */
  lemma MultiplesServed(s: State, invokeId: Octet, path: Path, specs: seq<Specification>)
    requires WellFormed(s) && PathOk(path)
    ensures var members := FoldMembers([], specs);
            && InRange(members)
            && AnswerFrame(s, RequestFrame(ReadMultipleRequest(invokeId, specs), path)).1
               == Returned(if s.script.mode == Offline then None
                           else Some(ReadMultipleAck(invokeId, Serve(s.objects, members))))
  {
    hide ReadSpecifications, Serve, FoldMembers, EncodeSpecifications, Npdu, EncodeResults, InRange, Slice, WellFormed;
    MembersRead(invokeId, specs);
    MembersInRange(specs);
  }

  lemma MembersInRange(specs: seq<Specification>)
    ensures InRange(FoldMembers([], specs))
  {
    hide FoldMembers;
    FoldedInRange([], specs);
  }

  /** An encoded WriteProperty that is let through is acknowledged, or fails if it commands a priority past 16. */
  lemma WritesServed(s: State, invokeId: Octet, path: Path, o: ObjectId, property: U32, value: Bytes,
                     priority: Option<U32>, index: Option<U32>)
    requires WellFormed(s) && PathOk(path) && Balanced(value)
    requires s.script.mode == Online && (ScriptedFor(s, o) == None || ScriptedFor(s, o) == Some(FailMalformed))
    requires o in s.objects && if s.config.writable.None? then property in s.objects[o]
                               else (o, property) in s.config.writable.value
    ensures var r := AnswerFrame(s, RequestFrame(WriteRequest(invokeId, o, property, value, priority, index), path)).1;
            r == if IsCommandable(s, o) && property == 85 && priority.Some? && priority.value > 16
                 then Raised(IndexError)
                 else Returned(Some([0x20, invokeId, 15]))
  {
    hide ParseWrite, Balanced, RequestFrame, EndToEnd.EncodeCall, WriteRequest, IsNull, RejectPdu, AbortPdu, WriteError,
         FailureFor, SetProperty, Effective;
    var c := Direct.WriteCall(o, property, value, priority, index);
    var f := RequestFrame(WriteRequest(invokeId, o, property, value, priority, index), path);
    EndToEnd.WriteFrame(invokeId, path, c);
    assert EndToEnd.EncodeCall(invokeId, c) == WriteRequest(invokeId, o, property, value, priority, index) by {
      EndToEnd.SameRequest(invokeId, c);
    }
    EndToEnd.FailureOfCall(s, f, o);
    ParsedNullKnown(f.payload);
  }
}
