/** The server as the source has it: an object whose fields each answer changes in place. Every method is
    tied to the function of its state that the other modules reason about. */
module ServerObject {
  import opened Octets
  import opened Tags
  import opened Constructed
  import opened Network
  import opened Requests
  import opened Multiple
  import opened Snapshots
  import opened Server

  /** `application_elements` */
  method ApplicationElements(octets: Bytes) returns (r: Outcome<seq<Bytes>>)
    ensures r == Elements(octets, 0)
  {
    hide ReadTag, Slice;
    var elements: seq<Bytes> := [];
    var position: nat := 0;
    BeforeNothing(Elements(octets, 0));
    while position < |octets|
      invariant Elements(octets, 0) == Before(elements, Elements(octets, position))
      decreases Left(octets, position)
    {
      var start := position;
      var t := ReadTag(octets, position);
      if t.Raised? {
        return Raised(t.error);
      }
      position := t.value.next;
      var element := Slice(octets, start, position);
      BeforeStep(elements, element, Elements(octets, position));
      elements := elements + [element];
    }
    assert elements + [] == elements;
    return Returned(elements);
  }

  function Before<T>(done: seq<T>, rest: Outcome<seq<T>>): Outcome<seq<T>> {
    match rest
    case Raised(e) => Raised(e)
    case Returned(v) => Returned(done + v)
  }

  lemma BeforeNothing<T>(rest: Outcome<seq<T>>)
    ensures Before([], rest) == rest
  {
    if rest.Returned? {
      assert [] + rest.value == rest.value;
    }
  }

  lemma BeforeStep<T>(done: seq<T>, x: T, rest: Outcome<seq<T>>)
    ensures Before(done + [x], rest)
            == match rest case Raised(e) => Raised(e) case Returned(v) => Returned(done + ([x] + v))
  {
    if rest.Returned? {
      assert done + [x] + rest.value == done + ([x] + rest.value);
    }
  }

  class SimulatedServer {
    const config: Config
    var objects: Objects
    var mode: Mode
    var readRequests: seq<ReadRecord>
    var writeRequests: seq<Write>
    var requestsWhileOffline: nat
    var priorityArrays: map<ObjectId, seq<Option<Bytes>>>
    var arrayReads: seq<(ObjectId, nat, nat)>
    var failures: map<ObjectId, Failure>
    var wholeArraysRefused: set<(ObjectId, U32)>
    var silentRequests: nat

    ghost function View(): State
      reads this
    {
      State(config, Script(mode, failures, wholeArraysRefused), objects, priorityArrays,
            Log(readRequests, writeRequests, arrayReads, requestsWhileOffline, silentRequests))
    }

    constructor (deviceInstance: Instance, objectName: Bytes, vendorIdentifier: U32, objects: Objects,
                 writable: Option<set<(ObjectId, U32)>>, commandable: Option<set<ObjectId>>, arrayElements: bool)
      requires commandable.Some? ==>
                 forall o <- commandable.value :: o in objects && PROPERTY_PRESENT_VALUE in objects[o]
      ensures View() == Initial(InitialConfig(deviceInstance, objectName, vendorIdentifier, objects, writable,
                                              commandable, arrayElements), objects)
      ensures commandable.Some? ==>
                forall o <- commandable.value ::
                  && o in config.relinquishDefaults
                  && config.relinquishDefaults[o] == objects[o][PROPERTY_PRESENT_VALUE]
                  && o in priorityArrays && priorityArrays[o] == seq(16, _ => None)
    {
      var keys := if commandable.Some? then commandable.value else {};
      config := InitialConfig(deviceInstance, objectName, vendorIdentifier, objects, writable, commandable,
                              arrayElements);
      this.objects := objects;
      mode := Online;
      readRequests, writeRequests, requestsWhileOffline := [], [], 0;
      priorityArrays := map o | o in keys :: seq(SLOTS, _ => None);
      arrayReads, failures, wholeArraysRefused, silentRequests := [], map[], {}, 0;
    }

    /** `_answer`: logs and objects change as AnswerFrame says, and the answer is its answer. */
    method Answer(frame: Fields) returns (r: Answer)
      requires WellFormed(View())
      modifies this
      ensures (View(), r) == AnswerFrame(old(View()), frame)
    {
      hide ParseWrite, ParseRead, ParseIndexedRead, WhoIs, ReadDevice, ReadListed, PerformWrite, Server.ReadMultiple,
           RequestedObject, WellFormed, RejectPdu, AbortPdu;
      var confirmed := frame.IsConfirmedRequest();
      var failure: Option<Failure> := None;
      if confirmed && mode == Online && failures != map[] {
        var requested := RequestedObject(frame);
        if requested.Raised? {
          return Raised(requested.error);
        }
        if requested.value.Some? && requested.value.value in failures {
          failure := Some(failures[requested.value.value]);
        }
        if failure == Some(FailReject) && |frame.payload| > 2 {
          return Returned(Some(RejectPdu(frame.payload[2], REJECT_REASON_UNRECOGNIZED_SERVICE)));
        }
        if failure == Some(FailAbort) && |frame.payload| > 2 {
          return Returned(Some(AbortPdu(frame.payload[2], ABORT_REASON_SEGMENTATION_NOT_SUPPORTED)));
        }
        if failure == Some(FailSilent) {
          silentRequests := silentRequests + 1;
          return Returned(None);
        }
      }
      r := AnswerRequest(frame, failure);
    }

    /** The rest of `_answer`, once no scripted failure has answered. */
    method AnswerRequest(frame: Fields, failure: Option<Failure>) returns (r: Answer)
      requires WellFormed(View())
      modifies this
      ensures (View(), r) == AnswerService(old(View()), frame, failure)
    {
      hide ParseRead, ParseIndexedRead, WhoIs, ReadDevice, ReadListed, PerformWrite, Server.ReadMultiple, ParseWrite;
      var service := ConfirmedService(frame);
      var request: Option<Write> := None;
      if service == Some(SERVICE_WRITE_PROPERTY) {
        var parsed := ParseWriteProperty(frame.payload);
        if parsed.Raised? {
          return Raised(parsed.error);
        }
        request := parsed.value;
        if request.Some? {
          writeRequests := writeRequests + [request.value];
        }
      }
      if mode == Offline {
        if service in {Some(SERVICE_READ_PROPERTY), Some(SERVICE_READ_PROPERTY_MULTIPLE),
                       Some(SERVICE_WRITE_PROPERTY)} {
          requestsWhileOffline := requestsWhileOffline + 1;
        }
        return Returned(None);
      }
      if service == Some(SERVICE_WRITE_PROPERTY) {
        r := WriteProperty(frame.payload[2], request);
      } else if service == Some(SERVICE_READ_PROPERTY_MULTIPLE) {
        r := ReadMultiple(frame.payload, frame.payload[2]);
      } else if service == Some(SERVICE_READ_PROPERTY) {
        r := ReadProperty(frame, failure);
      } else if frame.PduType() == Some(1) && |frame.payload| > 1 && frame.payload[1] == SERVICE_WHO_IS {
        r := AnswerWhoIs(frame.payload);
      } else {
        r := Returned(None);
      }
    }

    method ReadProperty(frame: Fields, failure: Option<Failure>) returns (r: Answer)
      requires WellFormed(View()) && ConfirmedService(frame) == Some(SERVICE_READ_PROPERTY)
      modifies this
      ensures (View(), r) == AnswerRead(old(View()), frame, failure)
    {
      hide ParseRead, ParseIndexedRead, ReadDevice, ReadListed, ReadPlain;
      var parsed := ParseIndexedRead(frame.payload);
      if parsed.Raised? {
        return Raised(parsed.error);
      }
      if parsed.value.Some? && parsed.value.value.0 in objects {
        var (o, property, index) := parsed.value.value;
        var special := ReadSpecial(frame.payload[2], o, property, index, failure);
        if special.Some? {
          return special.value;
        }
        r := ReadValueOf(frame.payload[2], o, property);
      } else {
        r := ReadDevice(config, frame.payload, frame.payload[2]);
      }
    }

    method ReadValueOf(invokeId: Octet, o: ObjectId, property: nat) returns (r: Answer)
      modifies this`readRequests
      ensures (View(), r) == ReadPlain(old(View()), invokeId, o, property)
    {
      readRequests := readRequests + [ReadRecord(SERVICE_READ_PROPERTY, [(o, [property])])];
      var served := Served(objects, o, property);
      if served.None? {
        return Returned(Some(ReadError(invokeId, ERROR_CLASS_PROPERTY, ERROR_CODE_UNKNOWN_PROPERTY)));
      }
      return Returned(Some(ReadAck(invokeId, o, property, None, served.value)));
    }

    /** `_read_special`: an answer other than the plain value, or None with nothing changed. */
    method ReadSpecial(invokeId: Octet, o: ObjectId, property: nat, index: Option<nat>, failure: Option<Failure>)
      returns (special: Option<Answer>)
      modifies this`readRequests, this`arrayReads
      ensures match special
              case Some(r) => (View(), r) == ReadListed(old(View()), invokeId, o, property, index, failure)
              case None => View() == old(View())
                           && ReadListed(View(), invokeId, o, property, index, failure)
                              == ReadPlain(View(), invokeId, o, property)
    {
      hide ReadAck, AbortPdu, ElementAnswer, ReadPlain;
      if failure == Some(FailMalformed) {
        return Some(if property >= 0x1_0000_0000 then Raised(ValueError)
                    else Returned(Some(ReadAck(invokeId, o, property, None, ApplicationNull()))));
      }
      if index.None? {
        if (o, property) in wholeArraysRefused {
          readRequests := readRequests + [ReadRecord(SERVICE_READ_PROPERTY, [(o, [property])])];
          return Some(Returned(Some(AbortPdu(invokeId, ABORT_REASON_SEGMENTATION_NOT_SUPPORTED))));
        }
        return None;
      }
      if !config.arrayElements {
        return None;
      }
      var served := Served(objects, o, property);
      if served.None? {
        return None;
      }
      readRequests := readRequests + [ReadRecord(SERVICE_READ_PROPERTY, [(o, [property])])];
      arrayReads := arrayReads + [(o, property, index.value)];
      var elements := ApplicationElements(served.value);
      if elements.Raised? {
        return Some(Raised(elements.error));
      }
      return Some(ElementAnswer(invokeId, o, property, index.value, elements.value));
    }

    /** `_read_multiple` */
    method ReadMultiple(apdu: Bytes, invokeId: Octet) returns (r: Answer)
      modifies this`readRequests
      ensures (View(), r) == Server.ReadMultiple(old(View()), apdu, invokeId)
    {
      hide ReadSpecifications, InRange, Slice;
      var members := ReadAccessSpecifications(Slice(apdu, 4, |apdu|));
      if members.Raised? {
        return Raised(members.error);
      }
      readRequests := readRequests + [ReadRecord(SERVICE_READ_PROPERTY_MULTIPLE, members.value)];
      if !InRange(members.value) {
        return Raised(ValueError);
      }
      var ack := BuildReadMultipleAck(invokeId, Serve(objects, members.value));
      return Returned(Some(ack));
    }

    /** `_who_is`: the limits are gathered tag by tag. */
    method AnswerWhoIs(apdu: Bytes) returns (r: Answer)
      ensures r == WhoIs(config, apdu)
    {
      hide ReadTag, FromBytes, Slice, IAm;
      var octets := Slice(apdu, 2, |apdu|);
      var limits: seq<nat> := [];
      var position: nat := 0;
      BeforeNothing(Limits(octets, 0));
      while position < |octets|
        invariant Limits(octets, 0) == Before(limits, Limits(octets, position))
        decreases Left(octets, position)
      {
        var t := ReadTag(octets, position);
        if t.Raised? {
          return Raised(t.error);
        }
        position := t.value.next;
        if t.value.kind == Value {
          BeforeStep(limits, FromBytes(t.value.body), Limits(octets, position));
          limits := limits + [FromBytes(t.value.body)];
        }
      }
      assert limits + [] == limits;
      if |limits| == 2 && !(limits[0] <= config.deviceInstance <= limits[1]) {
        return Returned(None);
      }
      return Returned(Some(IAm(config)));
    }

    /** `_write`: the value is stored first, then a commanded object's slot and its Present_Value. */
    method WriteProperty(invokeId: Octet, request: Option<Write>) returns (r: Answer)
      requires WellFormed(View())
      modifies this`objects, this`priorityArrays
      ensures (View(), r) == PerformWrite(old(View()), invokeId, request)
    {
      hide IsNull, Winning, SimpleAck, ErrorPdu;
      if request.None? {
        return Returned(None);
      }
      var w := request.value;
      var key, property := w.target, w.property;
      var isNull := IsNull(w.value);
      if isNull.Raised? {
        return Raised(isNull.error);
      }
      var commanded := config.commandable.Some? && key in config.commandable.value
                       && property == PROPERTY_PRESENT_VALUE;
      if config.commandable.Some? && isNull.value && !commanded && mode == Online
         && Served(objects, key, property).Some? {
        return Returned(Some(SimpleAck(invokeId, SERVICE_WRITE_PROPERTY)));
      }
      if key !in objects {
        return Returned(Some(WriteError(invokeId, ERROR_CLASS_OBJECT, ERROR_CODE_UNKNOWN_OBJECT)));
      }
      var allowed := if config.writable.None? then property in objects[key]
                     else (key, property) in config.writable.value;
      if mode == Refusing || !allowed {
        return Returned(Some(WriteError(invokeId, ERROR_CLASS_PROPERTY, ERROR_CODE_WRITE_ACCESS_DENIED)));
      }
      ghost var before := View();
      StoreValue(key, property, w.value);
      if commanded {
        var slots := priorityArrays[key];
        var slot := PriorityOf(w) - 1;
        if slot >= |slots| {
          return Raised(IndexError);
        }
        priorityArrays := priorityArrays[key := slots[slot := if isNull.value then None else Some(w.value)]];
        StoreValue(key, property, Effective(priorityArrays[key], config.relinquishDefaults[key]));
        StoredTwice(before.objects, key, property, w.value, objects[key][property]);
      }
      return Returned(Some(SimpleAck(invokeId, SERVICE_WRITE_PROPERTY)));
    }

    method StoreValue(key: ObjectId, property: U32, value: Bytes)
      requires key in objects
      modifies this`objects
      ensures objects == Stored(old(objects), key, property, value)
    {
      var properties: map<U32, Bytes> := objects[key][property := value];
      objects := objects[key := properties];
    }
  }

  function Stored(objects: Objects, o: ObjectId, property: U32, value: Bytes): Objects
    requires o in objects
  {
    var properties: map<U32, Bytes> := objects[o][property := value];
    objects[o := properties]
  }

  lemma StoredTwice(objects: Objects, o: ObjectId, property: U32, first: Bytes, second: Bytes)
    requires o in objects
    ensures Stored(Stored(objects, o, property, first), o, property, second) == Stored(objects, o, property, second)
  {
    var a, b := Stored(Stored(objects, o, property, first), o, property, second), Stored(objects, o, property, second);
    assert a[o] == b[o];
  }
}
