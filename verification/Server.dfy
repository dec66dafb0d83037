/** `SimulatedServer`: what it does with one decoded frame, as a function of its state. The class that does it
    in place is in `ServerObject`. */
module Server {
  import opened Octets
  import opened Tags
  import opened Constructed
  import opened Network
  import opened Requests
  import opened Multiple
  import opened Snapshots

  const REJECT_REASON_UNRECOGNIZED_SERVICE: Octet := 9
  const ABORT_REASON_SEGMENTATION_NOT_SUPPORTED: Octet := 4
  const SERVICE_WHO_IS: Octet := 8
  const PRIORITY_DEFAULT: nat := 16
  const SLOTS: nat := 16

  datatype Mode = Online | Offline | Refusing

  /** A scripted failure for one object. */
  datatype Failure = FailReject | FailAbort | FailSilent | FailMalformed

  datatype ReadRecord = ReadRecord(service: Octet, specifications: Members)

  /** Fixed when the server is made. */
  datatype Config = Config(
    deviceInstance: Instance, objectName: Bytes, vendorIdentifier: U32, writable: Option<set<(ObjectId, U32)>>,
    commandable: Option<set<ObjectId>>, relinquishDefaults: map<ObjectId, Bytes>, arrayElements: bool)

  /** How it answers; a test may change these at any time. */
  datatype Script = Script(mode: Mode, failures: map<ObjectId, Failure>, wholeArraysRefused: set<(ObjectId, U32)>)

  datatype Log = Log(readRequests: seq<ReadRecord>, writeRequests: seq<Write>, arrayReads: seq<(ObjectId, nat, nat)>,
                     requestsWhileOffline: nat, silentRequests: nat)

  datatype State = State(config: Config, script: Script, objects: Objects,
                         priorityArrays: map<ObjectId, seq<Option<Bytes>>>, log: Log)

  /** An answer: octets to send back, or none. */
  type Answer = Outcome<Option<Bytes>>

  /** The name fits application_character_string; every commandable object has a Present_Value at start. */
  ghost predicate WellFormed(s: State) {
    && |s.config.objectName| < 253
    && forall o :: s.config.commandable.Some? && o in s.config.commandable.value ==>
         o in s.priorityArrays && |s.priorityArrays[o]| == SLOTS && o in s.config.relinquishDefaults
         && o in s.objects && PROPERTY_PRESENT_VALUE in s.objects[o]
  }

  // -- the Device object and Who-Is --------------------------------------------------

  function DeviceId(c: Config): ObjectId { ObjectId(OBJECT_TYPE_DEVICE, c.deviceInstance) }

  predicate IsDevice(c: Config, o: ObjectId) {
    o.objectType == OBJECT_TYPE_DEVICE && (o.instance == c.deviceInstance || o.instance == MAX_INSTANCE)
  }

  function CharacterString(text: Bytes): Bytes
    requires |text| < 253
  {
    Primitive(7, false, [0] + text)
  }

  function DeviceProperty(c: Config, property: nat): Option<Bytes>
    requires |c.objectName| < 253
  {
    if property == PROPERTY_OBJECT_NAME then Some(CharacterString(c.objectName))
    else if property == PROPERTY_OBJECT_IDENTIFIER then Some(ApplicationObjectId(DeviceId(c)))
    else None
  }

  function ReadError(invokeId: Octet, errorClass: U32, errorCode: U32): Bytes {
    ErrorPdu(invokeId, SERVICE_READ_PROPERTY, errorClass, errorCode)
  }

  function WriteError(invokeId: Octet, errorClass: U32, errorCode: U32): Bytes {
    ErrorPdu(invokeId, SERVICE_WRITE_PROPERTY, errorClass, errorCode)
  }

  /** `SimulatedDevice._read_property` */
  function ReadDevice(c: Config, apdu: Bytes, invokeId: Octet): Answer
    requires |c.objectName| < 253
  {
    var request :- ParseRead(apdu);
    if request.None? then Returned(None) else
    var (o, property) := request.value;
    if !IsDevice(c, o) then Returned(Some(ReadError(invokeId, ERROR_CLASS_OBJECT, ERROR_CODE_UNKNOWN_OBJECT))) else
    var value := DeviceProperty(c, property);
    if value.Some? then Returned(Some(ReadAck(invokeId, DeviceId(c), property as U32, None, value.value)))
    else Returned(Some(ReadError(invokeId, ERROR_CLASS_PROPERTY, ERROR_CODE_UNKNOWN_PROPERTY)))
  }

  function IAm(c: Config): Bytes {
    [0x10, 0x00] + ApplicationObjectId(DeviceId(c)) + ApplicationUnsigned(1476) + ApplicationEnumerated(3)
    + ApplicationUnsigned(c.vendorIdentifier)
  }

  /** The numbers in every primitive from `position` on. */
  function Limits(octets: Bytes, position: nat): Outcome<seq<nat>>
    decreases Left(octets, position)
  {
    if position >= |octets| then Returned([]) else
    var t :- ReadTag(octets, position);
    var rest :- Limits(octets, t.next);
    Returned(if t.kind == Value then [FromBytes(t.body)] + rest else rest)
  }

  function WhoIs(c: Config, apdu: Bytes): Answer {
    var limits :- Limits(Slice(apdu, 2, |apdu|), 0);
    if |limits| == 2 && !(limits[0] <= c.deviceInstance <= limits[1]) then Returned(None) else Returned(Some(IAm(c)))
  }

  // -- ReadProperty and ReadPropertyMultiple of the objects --------------------------------

  /** `application_elements`: the octets of each tag in turn. */
  function Elements(octets: Bytes, position: nat): Outcome<seq<Bytes>>
    decreases Left(octets, position)
  {
    if position >= |octets| then Returned([]) else
    var t :- ReadTag(octets, position);
    var rest :- Elements(octets, t.next);
    Returned([Slice(octets, position, t.next)] + rest)
  }

  function LogRead(s: State, o: ObjectId, property: nat): State {
    s.(log := s.log.(readRequests := s.log.readRequests + [ReadRecord(SERVICE_READ_PROPERTY, [(o, [property])])]))
  }

  /** The answer to a read of one array element. */
  function ElementAnswer(invokeId: Octet, o: ObjectId, property: U32, index: nat, elements: seq<Bytes>): Answer {
    if index > |elements| then
      Returned(Some(ReadError(invokeId, ERROR_CLASS_PROPERTY, ERROR_CODE_INVALID_ARRAY_INDEX)))
    else if index >= 0x1_0000_0000 || |elements| >= 0x1_0000_0000 then Raised(ValueError)
    else
      var value := if index == 0 then ApplicationUnsigned(|elements|) else elements[index - 1];
      Returned(Some(ReadAck(invokeId, o, property, Some(index), value)))
  }

  /** A read that takes the value as it is. */
  function ReadPlain(s: State, invokeId: Octet, o: ObjectId, property: nat): (State, Answer) {
    var served := Served(s.objects, o, property);
    (LogRead(s, o, property),
     Returned(Some(if served.Some? then ReadAck(invokeId, o, property, None, served.value)
                   else ReadError(invokeId, ERROR_CLASS_PROPERTY, ERROR_CODE_UNKNOWN_PROPERTY))))
  }

  function ReadElement(s: State, invokeId: Octet, o: ObjectId, property: U32, index: nat, served: Bytes)
    : (State, Answer)
  {
    var t := LogRead(s, o, property);
    var u := t.(log := t.log.(arrayReads := t.log.arrayReads + [(o, property as nat, index)]));
    match Elements(served, 0)
    case Raised(e) => (u, Raised(e))
    case Returned(elements) => (u, ElementAnswer(invokeId, o, property, index, elements))
  }

  /** A read of a listed object: malformed, refused or indexed as the options say, else the value. */
  function ReadListed(s: State, invokeId: Octet, o: ObjectId, property: nat, index: Option<nat>,
                      failure: Option<Failure>): (State, Answer)
  {
    var served := Served(s.objects, o, property);
    if failure == Some(FailMalformed) then
      (s, if property >= 0x1_0000_0000 then Raised(ValueError)
          else Returned(Some(ReadAck(invokeId, o, property, None, ApplicationNull()))))
    else if index.None? && (o, property) in s.script.wholeArraysRefused then
      (LogRead(s, o, property), Returned(Some(AbortPdu(invokeId, ABORT_REASON_SEGMENTATION_NOT_SUPPORTED))))
    else if index.Some? && s.config.arrayElements && served.Some? then
      ReadElement(s, invokeId, o, property, index.value, served.value)
    else ReadPlain(s, invokeId, o, property)
  }

  function ReadMultiple(s: State, apdu: Bytes, invokeId: Octet): (State, Answer) {
    match ReadSpecifications(Slice(apdu, 4, |apdu|), 0, [], None)
    case Raised(e) => (s, Raised(e))
    case Returned(members) =>
      (s.(log := s.log.(readRequests := s.log.readRequests + [ReadRecord(SERVICE_READ_PROPERTY_MULTIPLE, members)])),
       if InRange(members) then Returned(Some(ReadMultipleAck(invokeId, Serve(s.objects, members))))
       else Raised(ValueError))
  }

  // -- WriteProperty ------------------------------------------------------------------------

  /** Whether the value starts with an application NULL. */
  function IsNull(value: Bytes): Outcome<bool> {
    if value == [] then Returned(false) else
    var t :- ReadTag(value, 0);
    Returned(!t.isContext && t.number == 0)
  }

  /** A write of the Present_Value of a commandable object. */
  predicate Commands(c: Config, w: Write) {
    c.commandable.Some? && w.target in c.commandable.value && w.property == PROPERTY_PRESENT_VALUE
  }

  predicate Commanded(s: State, w: Write) { Commands(s.config, w) }

  predicate Allowed(s: State, w: Write) {
    w.target in s.objects
    && if s.config.writable.None? then w.property in s.objects[w.target]
       else (w.target, w.property) in s.config.writable.value
  }

  /** The priority asked for; none, or 0, counts as the lowest. */
  function PriorityOf(w: Write): nat {
    if w.priority.None? || w.priority.value == 0 then PRIORITY_DEFAULT else w.priority.value
  }

  function SetProperty(s: State, o: ObjectId, property: U32, value: Bytes): (t: State)
    requires o in s.objects
    ensures WellFormed(s) ==> WellFormed(t)
  {
    var properties: map<U32, Bytes> := s.objects[o][property := value];
    s.(objects := s.objects[o := properties])
  }

  /** The first value that is not None. */
  function Winning(slots: seq<Option<Bytes>>): Option<Bytes> {
    if slots == [] then None else if slots[0].Some? then slots[0] else Winning(slots[1..])
  }

  /** The lowest-numbered non-empty slot, or the default. */
  function Effective(slots: seq<Option<Bytes>>, fallback: Bytes): Bytes {
    var w := Winning(slots);
    if w.Some? then w.value else fallback
  }

  function Command(s: State, w: Write, isNull: bool): (r: (State, Answer))
    requires WellFormed(s) && Commanded(s, w)
    ensures WellFormed(r.0)
  {
    var o := w.target;
    if PriorityOf(w) > SLOTS then
      // the value is stored before the slot is chosen, which fails
      (SetProperty(s, o, PROPERTY_PRESENT_VALUE, w.value), Raised(IndexError))
    else
      var slots := s.priorityArrays[o][PriorityOf(w) - 1 := if isNull then None else Some(w.value)];
      var value := Effective(slots, s.config.relinquishDefaults[o]);
      (SetProperty(s.(priorityArrays := s.priorityArrays[o := slots]), o, PROPERTY_PRESENT_VALUE, value),
       Returned(None))
  }

  function Perform(s: State, invokeId: Octet, w: Write, isNull: bool): (r: (State, Answer))
    requires WellFormed(s)
    ensures WellFormed(r.0)
  {
    var ack := Returned(Some(SimpleAck(invokeId, SERVICE_WRITE_PROPERTY)));
    if s.config.commandable.Some? && isNull && !Commanded(s, w) && s.script.mode == Online
       && Served(s.objects, w.target, w.property).Some? then (s, ack)
    else if w.target !in s.objects then
      (s, Returned(Some(WriteError(invokeId, ERROR_CLASS_OBJECT, ERROR_CODE_UNKNOWN_OBJECT))))
    else if s.script.mode == Refusing || !Allowed(s, w) then
      (s, Returned(Some(WriteError(invokeId, ERROR_CLASS_PROPERTY, ERROR_CODE_WRITE_ACCESS_DENIED))))
    else if Commanded(s, w) then
      var (t, r) := Command(s, w, isNull);
      (t, if r.Raised? then r else ack)
    else (SetProperty(s, w.target, w.property, w.value), ack)
  }

  function PerformWrite(s: State, invokeId: Octet, request: Option<Write>): (r: (State, Answer))
    requires WellFormed(s)
    ensures WellFormed(r.0)
  {
    if request.None? then (s, Returned(None)) else
    match IsNull(request.value.value)
    case Raised(e) => (s, Raised(e))
    case Returned(isNull) => Perform(s, invokeId, request.value, isNull)
  }

  // -- one frame ------------------------------------------------------------------------------

  /** The service of a confirmed request, if the frame is one and is long enough. */
  function ConfirmedService(f: Fields): Option<Octet> {
    if f.IsConfirmedRequest() && |f.payload| > 3 then Some(f.payload[3]) else None
  }

  function RequestedObject(f: Fields): Outcome<Option<ObjectId>> {
    if ConfirmedService(f) == Some(SERVICE_READ_PROPERTY) then
      var r :- ParseRead(f.payload);
      Returned(if r.Some? then Some(r.value.0) else None)
    else if ConfirmedService(f) == Some(SERVICE_WRITE_PROPERTY) then
      var w :- ParseWrite(f.payload);
      Returned(if w.Some? then Some(w.value.target) else None)
    else Returned(None)
  }

  function FailureFor(s: State, f: Fields): Outcome<Option<Failure>> {
    if !f.IsConfirmedRequest() || s.script.mode != Online || s.script.failures == map[] then Returned(None) else
    var o :- RequestedObject(f);
    Returned(if o.Some? && o.value in s.script.failures then Some(s.script.failures[o.value]) else None)
  }

  function AnswerRead(s: State, f: Fields, failure: Option<Failure>): (r: (State, Answer))
    requires WellFormed(s) && ConfirmedService(f).Some?
    ensures WellFormed(r.0)
  {
    var invokeId := f.payload[2];
    match ParseIndexedRead(f.payload)
    case Raised(e) => (s, Raised(e))
    case Returned(parsed) =>
      if parsed.Some? && parsed.value.0 in s.objects then
        ReadListed(s, invokeId, parsed.value.0, parsed.value.1, parsed.value.2, failure)
      else (s, ReadDevice(s.config, f.payload, invokeId))
  }

  function LogWrite(s: State, request: Option<Write>): State {
    if request.Some? then s.(log := s.log.(writeRequests := s.log.writeRequests + [request.value])) else s
  }

  function AnswerOffline(s: State, f: Fields): (State, Answer) {
    (if ConfirmedService(f) in {Some(SERVICE_READ_PROPERTY), Some(SERVICE_READ_PROPERTY_MULTIPLE),
                                Some(SERVICE_WRITE_PROPERTY)}
     then s.(log := s.log.(requestsWhileOffline := s.log.requestsWhileOffline + 1)) else s,
     Returned(None))
  }

  /** Once no scripted failure has pre-empted the answer. */
  function AnswerService(s: State, f: Fields, failure: Option<Failure>): (r: (State, Answer))
    requires WellFormed(s)
    ensures WellFormed(r.0)
  {
    if ConfirmedService(f) == Some(SERVICE_WRITE_PROPERTY) then
      match ParseWrite(f.payload)
      case Raised(e) => (s, Raised(e))
      case Returned(request) =>
        var t := LogWrite(s, request);
        if s.script.mode == Offline then AnswerOffline(t, f) else PerformWrite(t, f.payload[2], request)
    else if s.script.mode == Offline then AnswerOffline(s, f)
    else if ConfirmedService(f) == Some(SERVICE_READ_PROPERTY_MULTIPLE) then ReadMultiple(s, f.payload, f.payload[2])
    else if ConfirmedService(f) == Some(SERVICE_READ_PROPERTY) then AnswerRead(s, f, failure)
    else if f.PduType() == Some(1) && |f.payload| > 1 && f.payload[1] == SERVICE_WHO_IS then
      (s, WhoIs(s.config, f.payload))
    else (s, Returned(None))
  }

  /** `SimulatedServer._answer`. A failure is scripted for an object, so the frame names one. */
  function AnswerFrame(s: State, f: Fields): (r: (State, Answer))
    requires WellFormed(s)
    ensures WellFormed(r.0)
  {
    match FailureFor(s, f)
    case Raised(e) => (s, Raised(e))
    case Returned(failure) =>
      if failure == Some(FailReject) && |f.payload| > 2 then
        (s, Returned(Some(RejectPdu(f.payload[2], REJECT_REASON_UNRECOGNIZED_SERVICE))))
      else if failure == Some(FailAbort) && |f.payload| > 2 then
        (s, Returned(Some(AbortPdu(f.payload[2], ABORT_REASON_SEGMENTATION_NOT_SUPPORTED))))
      else if failure == Some(FailSilent) then
        (s.(log := s.log.(silentRequests := s.log.silentRequests + 1)), Returned(None))
      else AnswerService(s, f, failure)
  }

  /** What the serving thread does with a decoded frame: only an APDU is answered. */
  function ServeFrame(s: State, f: Fields): (r: (State, Answer))
    requires WellFormed(s)
    ensures WellFormed(r.0)
  {
    if f.ok && f.networkMessage.None? then AnswerFrame(s, f) else (s, Returned(None))
  }

  // -- a server made ------------------------------------------------------------------------------

  function InitialConfig(deviceInstance: Instance, objectName: Bytes, vendorIdentifier: U32, objects: Objects,
                         writable: Option<set<(ObjectId, U32)>>, commandable: Option<set<ObjectId>>,
                         arrayElements: bool): Config
    requires commandable.Some? ==>
               forall o <- commandable.value :: o in objects && PROPERTY_PRESENT_VALUE in objects[o]
  {
    var keys := if commandable.Some? then commandable.value else {};
    Config(deviceInstance, objectName, vendorIdentifier, writable, commandable,
           map o | o in keys :: objects[o][PROPERTY_PRESENT_VALUE], arrayElements)
  }

  function Initial(config: Config, objects: Objects): State {
    var keys := if config.commandable.Some? then config.commandable.value else {};
    State(config, Script(Online, map[], {}), objects, map o | o in keys :: seq(SLOTS, _ => None),
          Log([], [], [], 0, 0))
  }
}
