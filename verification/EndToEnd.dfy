/** A call carried over the wire: encoded, framed, decoded, parsed, performed by the server, answered,
    framed, decoded and interpreted by the client. It comes to the same as the call made directly. */
module EndToEnd {
  import opened Octets
  import opened Tags
  import opened Constructed
  import opened Network
  import opened Requests
  import opened Multiple
  import opened Snapshots
  import opened Server
  import opened Arbiter
  import opened Runs
  import Direct

  // -- the wire ------------------------------------------------------------------

  /** The receive buffer of the sockets: a longer datagram loses its tail. */
  const RECEIVE_BUFFER := 2048

  function Received(datagram: Bytes): Bytes { Slice(datagram, 0, RECEIVE_BUFFER) }

  lemma ReceivedLength(datagram: Bytes)
    ensures Received(datagram) <= datagram
    ensures |Received(datagram)| == if |datagram| < 2048 then |datagram| else 2048
  {
  }

  function EncodeCall(invokeId: Octet, c: Direct.Call): Bytes {
    match c
    case ReadCall(o, property, index) => ReadRequest(invokeId, o, property, index)
    case WriteCall(o, property, value, priority, index) => WriteRequest(invokeId, o, property, value, priority, index)
    case MultipleCall(specs) => ReadMultipleRequest(invokeId, specs)
  }

  /** What is left of a payload in the receive buffer, after the headers. */
  function Cut(payload: Bytes, n: Npci): Bytes
    requires Packable(n)
  {
    HeaderOctets(n);
    Slice(payload, 0, RECEIVE_BUFFER - 4 - |Npdu([], n)|)
  }

  lemma HeaderOctets(n: Npci)
    requires Packable(n)
    ensures 2 <= |Npdu([], n)| <= 522 && forall payload :: |Npdu(payload, n)| == |Npdu([], n)| + |payload|
  {
  }

  /** However long it was, a datagram decodes to the frame of what the buffer holds of it. */
  lemma CutFrame(payload: Bytes, n: Npci)
    requires Packable(n) && FitsBvll(Npdu(payload, n))
    ensures FitsBvll(Npdu(Cut(payload, n), n))
    ensures FrameOf(Received(Bvlc(Npdu(payload, n)))) == FrameOf(Bvlc(Npdu(Cut(payload, n), n)))
  {
    hide DecodeNpdu, U16Bytes, Npdu;
    HeaderOctets(n);
    var whole, part := Bvlc(Npdu(payload, n)), Bvlc(Npdu(Cut(payload, n), n));
    CutNpdu(payload, n);
    assert Received(whole)[4..] == part[4..];
    SameBody(Received(whole), part);
  }

  /** The length octets of the BVLL header are not looked at. */
  lemma SameBody(a: Bytes, b: Bytes)
    requires |a| >= 4 && |b| >= 4 && a[0] == b[0] && a[1] == b[1] == BVLC_ORIGINAL_UNICAST && a[4..] == b[4..]
    ensures FrameOf(a) == FrameOf(b)
  {
    hide DecodeNpdu;
  }

  lemma CutNpdu(payload: Bytes, n: Npci)
    requires Packable(n)
    ensures Slice(Npdu(payload, n), 0, RECEIVE_BUFFER - 4) == Npdu(Cut(payload, n), n)
  {
    var head := [0x01, Control(n)] + Address(n.dnet, n.dadr) + Address(n.snet, n.sadr) + HopCount(n) + MessageType(n);
    assert Npdu([], n) == head;
    assert Npdu(payload, n) == head + payload;
  }

  /** Receive a datagram, serve it and frame the answer for the way back. */
  function ServerTurn(s: State, datagram: Bytes): (r: (State, Answer))
    requires WellFormed(s)
    ensures WellFormed(r.0)
  {
    match FrameOf(Received(datagram))
    case Raised(e) => (s, Raised(e))
    case Returned(f) =>
      var (t, r) := ServeFrame(s, f);
      if r.Raised? || r.value.None? then (t, r) else
      var npdu := Npdu(r.value.value, ReplyNpci(f));
      (t, if FitsBvll(npdu) then Returned(Some(Bvlc(npdu))) else Raised(StructError))
  }

  /** Whether a frame is the answer to `invokeId`; reading the invoke id of a response one octet long raises. */
  function Matching(f: Fields, invokeId: Octet): Outcome<bool> {
    if f.ok && f.networkMessage.None? && f.IsResponse() then
      var id :- f.InvokeId();
      Returned(id == Some(invokeId))
    else Returned(false)
  }

  /** The third octet of a Reject or an Abort, if it has one. */
  function Reason(apdu: Bytes): Option<Octet> { if |apdu| < 3 then None else Some(apdu[2]) }

  /** What `Answer` and the service decoders make of an accepted response. */
  function Interpret(c: Direct.Call, f: Fields): Outcome<Direct.Reply> {
    match f.PduType()
    case None => Returned(Direct.NoAnswer)
    case Some(pdu) =>
      match pdu
      case 2 => Returned(Direct.Acked)
      case 3 =>
        if c.MultipleCall? then
          var results :- ParseMultipleAck(Some(f));
          Returned(Direct.Properties(results))
        else
          var value :- ReadValue(f.payload, 3);
          Returned(Direct.Content(value))
      case 5 =>
        var error :- ErrorClassAndCode(f.payload);
        Returned(Direct.Refused(error))
      case 6 => Returned(Direct.Rejected(Reason(f.payload)))
      case 7 => Returned(Direct.Aborted(Reason(f.payload)))
      case _ => Returned(Direct.NoAnswer)
  }

  function ClientTurn(invokeId: Octet, c: Direct.Call, datagram: Bytes): Outcome<Direct.Reply> {
    var f :- FrameOf(Received(datagram));
    var taken :- Matching(f, invokeId);
    if taken then Interpret(c, f) else Returned(Direct.NoAnswer)
  }

  function WireCall(s: State, invokeId: Octet, path: Path, c: Direct.Call): (r: (State, Outcome<Direct.Reply>))
    requires WellFormed(s) && PathOk(path)
    ensures WellFormed(r.0)
  {
    var npdu := Npdu(EncodeCall(invokeId, c), RequestNpci(path));
    if !FitsBvll(npdu) then (s, Raised(StructError)) else
    var (t, r) := ServerTurn(s, Bvlc(npdu));
    (t, match r
        case Raised(e) => Raised(e)
        case Returned(None) => Returned(Direct.NoAnswer)
        case Returned(Some(datagram)) => ClientTurn(invokeId, c, datagram))
  }

  // -- the abstraction: forget the cached Present_Values -----------------------------

  function TableOf(slots: seq<Option<Bytes>>): map<nat, Bytes> {
    map k: nat | 1 <= k <= |slots| && InUse(slots, k) :: slots[k - 1].value
  }

  predicate InUse(slots: seq<Option<Bytes>>, k: nat) { 1 <= k <= |slots| && slots[k - 1].Some? }

  function Abs(s: State): Direct.Plain {
    Direct.Plain(s.config, s.script,
                 map o | o in s.objects ::
                   var properties: map<U32, Bytes> :=
                     if IsCommandable(s, o) then s.objects[o] - {PROPERTY_PRESENT_VALUE} else s.objects[o];
                   properties,
                 map o | o in s.priorityArrays :: TableOf(s.priorityArrays[o]))
  }

  lemma {:induction false} FirstOfTable(slots: seq<Option<Bytes>>, k: nat)
    requires |slots| == SLOTS && 1 <= k <= SLOTS + 1
    ensures Direct.FirstFrom(TableOf(slots), k) == Winning(slots[k - 1..])
    decreases SLOTS + 1 - k
  {
    if k <= SLOTS {
      FirstOfTable(slots, k + 1);
      assert slots[k - 1..][1..] == slots[k..];
      assert slots[k - 1..][0] == slots[k - 1];
    }
  }

  lemma PresentOfAbs(s: State, o: ObjectId)
    requires WellFormed(s) && IsCommandable(s, o)
    ensures Direct.PresentValue(Abs(s), o) == Effective(s.priorityArrays[o], s.config.relinquishDefaults[o])
  {
    hide Winning, TableOf;
    FirstOfTable(s.priorityArrays[o], 1);
    assert s.priorityArrays[o][0..] == s.priorityArrays[o];
  }

  /** The server serves exactly what the plain objects show. */
  lemma VisibleOfAbs(s: State)
    requires Invariant(s)
    ensures Direct.Visible(Abs(s)) == s.objects
  {
    hide Direct.PresentValue, Effective, Balanced, AllBalanced, BalancedSlots, TableOf;
    var p := Abs(s);
    forall o | o in s.objects
      ensures o in Direct.Visible(p) && Direct.Visible(p)[o] == s.objects[o]
    {
      if IsCommandable(s, o) {
        PresentOfAbs(s, o);
        assert Agrees(s, o);
      }
    }
  }

  lemma NameFits(s: State)
    requires WellFormed(s)
    ensures |Abs(s).config.objectName| < 253
  {
    hide TableOf;
  }

  lemma AbsOfLogs(s: State, t: State)
    requires SameButLogs(s, t)
    ensures Abs(s) == Abs(t)
  {
  }

  lemma AbsOfStore(s: State, o: ObjectId, property: U32, value: Bytes)
    requires o in s.objects && !(IsCommandable(s, o) && property == PROPERTY_PRESENT_VALUE)
    ensures var p := Abs(s);
            var properties: map<U32, Bytes> := p.values[o][property := value];
            Abs(SetProperty(s, o, property, value)) == p.(values := p.values[o := properties])
  {
    hide TableOf;
    var p, t := Abs(s), SetProperty(s, o, property, value);
    var properties: map<U32, Bytes> := p.values[o][property := value];
    assert Abs(t).values[o] == properties;
    assert Abs(t).values == p.values[o := properties];
  }

  lemma AbsOfCommand(s: State, w: Write, isNull: bool)
    requires WellFormed(s) && Commanded(s, w) && PriorityOf(w) <= SLOTS
    ensures var p, o, k := Abs(s), w.target, PriorityOf(w);
            var changed: map<nat, Bytes> := if isNull then p.table[o] - {k} else p.table[o][k := w.value];
            Abs(Command(s, w, isNull).0) == p.(table := p.table[o := changed])
  {
    hide Effective, TableOf;
    var p, o, k, t := Abs(s), w.target, PriorityOf(w), Command(s, w, isNull).0;
    var changed: map<nat, Bytes> := if isNull then p.table[o] - {k} else p.table[o][k := w.value];
    var slots := s.priorityArrays[o];
    assert IsCommandable(s, o);
    TableOfUpdate(slots, k, if isNull then None else Some(w.value));
    assert Abs(t).table[o] == changed;
    assert Abs(t).table == p.table[o := changed];
    assert Abs(t).values[o] == p.values[o];
    assert Abs(t).values == p.values;
  }

  lemma TableOfUpdate(slots: seq<Option<Bytes>>, k: nat, v: Option<Bytes>)
    requires 1 <= k <= |slots|
    ensures TableOf(slots[k - 1 := v]) == if v.Some? then TableOf(slots)[k := v.value] else TableOf(slots) - {k}
  {
  }

  // -- what the client makes of each kind of answer ------------------------------------

  /** `apdu` is a response with this invoke id that the client reads as `reply`. */
  predicate Carries(invokeId: Octet, c: Direct.Call, apdu: Bytes, reply: Direct.Reply) {
    |apdu| > 1 && apdu[0] / 16 in {2, 3, 5, 6, 7} && apdu[1] == invokeId
    && Interpret(c, BLANK.(payload := apdu)) == Returned(reply)
  }

  lemma CarriesValue(invokeId: Octet, c: Direct.Call, o: ObjectId, property: U32, index: Option<U32>, value: Bytes)
    requires Balanced(value) && c.ReadCall?
    ensures Carries(invokeId, c, ReadAck(invokeId, o, property, index, value), Direct.Content(Some(value)))
    ensures |ReadAck(invokeId, o, property, index, value)| == ReadAckSize(property, index, value)
    ensures IsAck(ReadAck(invokeId, o, property, index, value), Some(value))
  {
    hide ReadValue, Target, Enclosed, Balanced;
    ReadAckRoundTrip(invokeId, o, property, index, value);
    ReadAckOctets(invokeId, o, property, index, value);
  }

  lemma ReadAckOctets(invokeId: Octet, o: ObjectId, property: U32, index: Option<U32>, value: Bytes)
    ensures |ReadAck(invokeId, o, property, index, value)| == ReadAckSize(property, index, value)
  {
    hide ContextUnsigned;
  }

  lemma CarriesError(invokeId: Octet, c: Direct.Call, service: Octet, errorClass: U32, errorCode: U32)
    ensures Carries(invokeId, c, ErrorPdu(invokeId, service, errorClass, errorCode),
                    Direct.Refusal(errorClass, errorCode))
    ensures errorClass < 256 && errorCode < 256 ==> |ErrorPdu(invokeId, service, errorClass, errorCode)| == 7
  {
    hide ErrorClassAndCode, ApplicationEnumerated;
    ErrorRoundTrip(invokeId, service, errorClass, errorCode);
    ErrorOctets(invokeId, service, errorClass, errorCode);
  }

  lemma ErrorOctets(invokeId: Octet, service: Octet, errorClass: U32, errorCode: U32)
    ensures errorClass < 256 && errorCode < 256 ==> |ErrorPdu(invokeId, service, errorClass, errorCode)| == 7
  {
  }

  lemma CarriesShort(invokeId: Octet, c: Direct.Call, service: Octet, reason: Octet)
    ensures Carries(invokeId, c, SimpleAck(invokeId, service), Direct.Acked)
    ensures Carries(invokeId, c, RejectPdu(invokeId, reason), Direct.Rejected(Some(reason)))
    ensures Carries(invokeId, c, AbortPdu(invokeId, reason), Direct.Aborted(Some(reason)))
    ensures |SimpleAck(invokeId, service)| == |RejectPdu(invokeId, reason)| == |AbortPdu(invokeId, reason)| == 3
  {
  }

  /** The octets of a ReadProperty-ACK. */
  function ReadAckSize(property: U32, index: Option<U32>, value: Bytes): nat {
    10 + |ContextUnsigned(1, property)| + |OptionalUnsigned(2, index)| + |value|
  }

  /** The plain objects answer the read by element, so the answer repeats the index. */
  predicate ByElement(p: Direct.Plain, c: Direct.Call) {
    c.ReadCall? && c.index.Some? && p.config.arrayElements
    && Served(Direct.Visible(p), c.target, c.property).Some? && Direct.Scripted(p, c) != Some(FailMalformed)
  }

  /** The octets of a ReadPropertyMultiple-ACK. */
  function MultipleSize(objects: Objects, specs: seq<Specification>): nat {
    FoldedInRange([], specs);
    3 + |EncodeResults(Serve(objects, FoldMembers([], specs)))|
  }

  /** The octets of the APDU that carries a plain reply: what a caller can tell from the plain objects. */
  function SizeOf(p: Direct.Plain, c: Direct.Call, reply: Direct.Reply): nat {
    match reply
    case NoAnswer => 0
    case Content(v) =>
      if c.ReadCall? && v.Some? then ReadAckSize(c.property, if ByElement(p, c) then c.index else None, v.value) else 0
    case Refused(_) => 7
    case Properties(_) => if c.MultipleCall? then MultipleSize(Direct.Visible(p), c.specs) else 0
    case _ => 3
  }

  /** The server's answer `r` to a request is what `reply` says, in so many octets. */
  ghost predicate Conveys(invokeId: Octet, c: Direct.Call, r: Answer, reply: Direct.Reply, size: nat) {
    r.Returned? &&
    match r.value
    case None => reply == Direct.NoAnswer
    case Some(apdu) =>
      Carries(invokeId, c, apdu, reply) && |apdu| == size && (reply.Content? ==> IsAck(apdu, reply.octets))
  }

  /** A ReadProperty-ACK of a balanced value. */
  ghost predicate IsAck(apdu: Bytes, value: Option<Bytes>) {
    value.Some? && Balanced(value.value)
    && exists invokeId, o, property, index :: apdu == ReadAck(invokeId, o, property, index, value.value)
  }

  // -- one call ---------------------------------------------------------------------------

  /** What the caller has to see to: a written value has balanced tags and a priority in 1..16 (or absent, or
      0, which counts as absent); a value read by element splits into balanced elements. */
  predicate CallOk(p: Direct.Plain, c: Direct.Call) {
    match c
    case ReadCall(o, property, index) =>
      var visible := Direct.Visible(p);
      index.Some? && p.config.arrayElements && Served(visible, o, property).Some? ==> Flat(visible[o][property])
    case WriteCall(_, _, value, priority, _) => Balanced(value) && (priority.None? || priority.value <= SLOTS)
    case MultipleCall(_) => true
  }

  /** A run of elements, each with balanced tags. */
  predicate Flat(value: Bytes) {
    var e := Elements(value, 0);
    e.Returned? && |e.value| < 0x1_0000_0000 && forall i | 0 <= i < |e.value| :: Balanced(e.value[i])
  }

  lemma ReadFrame(invokeId: Octet, path: Path, o: ObjectId, property: U32, index: Option<U32>)
    requires PathOk(path)
    ensures var f := RequestFrame(ReadRequest(invokeId, o, property, index), path);
            && ConfirmedService(f) == Some(SERVICE_READ_PROPERTY) && f.payload[2] == invokeId
            && ParseRead(f.payload) == Returned(Some((o, property as nat)))
            && ParseIndexedRead(f.payload) == Returned(Some((o, property as nat, Widen(index))))
  {
    hide ParseRead, ParseIndexedRead, Target, Npdu;
    ReadRequestRoundTrip(invokeId, o, property, index);
  }

  lemma DeviceReads(s: State, invokeId: Octet, apdu: Bytes, c: Direct.Call)
    requires Invariant(s) && WellFormed(s) && c.ReadCall? && c.target !in s.objects
    requires ParseRead(apdu) == Returned(Some((c.target, c.property as nat)))
    ensures var reply := Direct.DeviceReply(Abs(s), c.target, c.property);
            Conveys(invokeId, c, ReadDevice(s.config, apdu, invokeId), reply, SizeOf(Abs(s), c, reply))
  {
    hide ParseRead, Carries, IsAck, Abs, ReadAck, ErrorPdu, CharacterString, ApplicationObjectId, Invariant,
         ReadAckSize, Direct.Visible;
    AbsConfig(s);
    VisibleOfAbs(s);
    CarriesError(invokeId, c, SERVICE_READ_PROPERTY, ERROR_CLASS_OBJECT, ERROR_CODE_UNKNOWN_OBJECT);
    CarriesError(invokeId, c, SERVICE_READ_PROPERTY, ERROR_CLASS_PROPERTY, ERROR_CODE_UNKNOWN_PROPERTY);
    var v := DeviceProperty(s.config, c.property);
    if v.Some? {
      DeviceValuesBalanced(s);
      CarriesValue(invokeId, c, DeviceId(s.config), c.property, None, v.value);
    }
  }

  lemma AbsConfig(s: State)
    ensures Abs(s).config == s.config && Abs(s).script == s.script
  {
  }

  lemma DeviceValuesBalanced(s: State)
    requires |s.config.objectName| < 253
    ensures Balanced(CharacterString(s.config.objectName)) && Balanced(ApplicationObjectId(DeviceId(s.config)))
  {
    hide Balanced, Primitive;
    BalancedPrimitive(7, false, [0] + s.config.objectName);
    BalancedPrimitive(12, false, ObjectIdBytes(DeviceId(s.config)));
  }

  lemma ListedReads(s: State, invokeId: Octet, c: Direct.Call, failure: Option<Failure>)
    requires Invariant(s) && c.ReadCall? && c.target in s.objects && CallOk(Abs(s), c)
    requires failure == Direct.Scripted(Abs(s), c)
    ensures var (t, r) := ReadListed(s, invokeId, c.target, c.property, Widen(c.index), failure);
            var reply := Direct.DirectRead(Abs(s), c.target, c.property, c.index, failure == Some(FailMalformed));
            SameButLogs(s, t) && Conveys(invokeId, c, r, reply, SizeOf(Abs(s), c, reply))
  {
    hide Carries, IsAck, Abs, ReadAck, ErrorPdu, Elements, Direct.Visible, AbortPdu, ApplicationNull, Balanced,
         AllBalanced, ApplicationUnsigned, BalancedSlots, Effective, ReadAckSize, Direct.Scripted;
    AbsConfig(s);
    VisibleOfAbs(s);
    CarriesError(invokeId, c, SERVICE_READ_PROPERTY, ERROR_CLASS_PROPERTY, ERROR_CODE_UNKNOWN_PROPERTY);
    CarriesError(invokeId, c, SERVICE_READ_PROPERTY, ERROR_CLASS_PROPERTY, ERROR_CODE_INVALID_ARRAY_INDEX);
    CarriesShort(invokeId, c, SERVICE_READ_PROPERTY, ABORT_REASON_SEGMENTATION_NOT_SUPPORTED);
    NullBalanced();
    CarriesValue(invokeId, c, c.target, c.property, None, ApplicationNull());
    if Served(s.objects, c.target, c.property).Some? {
      ServedIsBalanced(s.objects, c.target, c.property);
      var value := s.objects[c.target][c.property];
      CarriesValue(invokeId, c, c.target, c.property, None, value);
      if c.index.Some? && s.config.arrayElements {
        ElementConveyed(invokeId, c, Elements(value, 0).value);
      }
    }
  }

  lemma NullBalanced()
    ensures Balanced(ApplicationNull())
  {
    assert ReadTag(ApplicationNull(), 0) == Returned(Tag(0, false, Value, [], 1));
  }

  lemma ServedIsBalanced(objects: Objects, o: ObjectId, property: U32)
    requires AllBalanced(objects) && Served(objects, o, property).Some?
    ensures Balanced(objects[o][property])
  {
    hide Balanced;
  }

  lemma ElementConveyed(invokeId: Octet, c: Direct.Call, elements: seq<Bytes>)
    requires c.ReadCall? && c.index.Some? && |elements| < 0x1_0000_0000
    requires forall i | 0 <= i < |elements| :: Balanced(elements[i])
    ensures var reply := Direct.ElementReply(elements, c.index.value);
            Conveys(invokeId, c, ElementAnswer(invokeId, c.target, c.property, c.index.value, elements), reply,
                    if reply.Content? then ReadAckSize(c.property, c.index, reply.octets.value) else 7)
  {
    hide Carries, IsAck, ReadAck, ErrorPdu, Balanced, ApplicationUnsigned, ReadAckSize;
    var index := c.index.value;
    if index == 0 {
      CountBalanced(|elements|);
      CarriesValue(invokeId, c, c.target, c.property, Some(0), ApplicationUnsigned(|elements|));
    } else if index <= |elements| {
      CarriesValue(invokeId, c, c.target, c.property, Some(index), elements[index - 1]);
    } else {
      CarriesError(invokeId, c, SERVICE_READ_PROPERTY, ERROR_CLASS_PROPERTY, ERROR_CODE_INVALID_ARRAY_INDEX);
    }
  }

  lemma CountBalanced(n: U32)
    ensures Balanced(ApplicationUnsigned(n))
  {
    hide Balanced, Primitive;
    BalancedPrimitive(2, false, UnsignedOctets(n));
  }

  /** The scripted failure the server finds in a request is the one for the object called. */
  lemma FailureOfCall(s: State, f: Fields, o: ObjectId)
    requires RequestedObject(f) == Returned(Some(o)) && f.IsConfirmedRequest()
    ensures FailureFor(s, f) == Returned(if s.script.mode == Online && o in s.script.failures
                                         then Some(s.script.failures[o]) else None)
  {
    hide RequestedObject;
  }

  /** A request of which the server's answer and effect are those of the direct call. */
  ghost predicate Matches(s: State, invokeId: Octet, f: Fields, c: Direct.Call)
    requires WellFormed(s)
  {
    var (t, r) := AnswerFrame(s, f);
    var (q, reply) := Direct.Perform(Abs(s), c);
    Conveys(invokeId, c, r, reply, SizeOf(Abs(s), c, reply)) && Abs(t) == q
  }

  lemma ReadMatches(s: State, invokeId: Octet, path: Path, c: Direct.Call)
    requires Invariant(s) && PathOk(path) && c.ReadCall? && CallOk(Abs(s), c)
    ensures Matches(s, invokeId, RequestFrame(EncodeCall(invokeId, c), path), c)
  {
    hide ParseRead, ParseIndexedRead, ReadRequest, ReadListed, ReadDevice, Carries, IsAck, RequestFrame, RejectPdu,
         AbortPdu, Direct.DirectRead, Direct.DeviceReply, Abs, Invariant, Direct.Visible, FailureFor, CallOk,
         ReadAckSize, ByElement;
    InvariantWellFormed(s);
    var f := RequestFrame(EncodeCall(invokeId, c), path);
    ReadFrame(invokeId, path, c.target, c.property, c.index);
    FailureOfCall(s, f, c.target);
    CarriesShort(invokeId, c, SERVICE_READ_PROPERTY, REJECT_REASON_UNRECOGNIZED_SERVICE);
    CarriesShort(invokeId, c, SERVICE_READ_PROPERTY, ABORT_REASON_SEGMENTATION_NOT_SUPPORTED);
    AbsConfig(s);
    var t := AnswerFrame(s, f).0;
    var failure := Direct.Scripted(Abs(s), c);
    if c.target in s.objects {
      ListedReads(s, invokeId, c, failure);
    } else {
      DeviceReads(s, invokeId, f.payload, c);
      UnlistedRead(s, c, failure == Some(FailMalformed));
    }
    assert SameButLogs(s, t);
    AbsOfLogs(s, t);
  }

  lemma UnlistedRead(s: State, c: Direct.Call, malformed: bool)
    requires Invariant(s) && c.ReadCall? && c.target !in s.objects && WellFormed(s)
    ensures Direct.DirectRead(Abs(s), c.target, c.property, c.index, malformed)
            == Direct.DeviceReply(Abs(s), c.target, c.property)
  {
    hide Abs, Direct.DeviceReply, Direct.Visible, Invariant;
    AbsConfig(s);
    VisibleOfAbs(s);
  }

  lemma WriteFrame(invokeId: Octet, path: Path, c: Direct.Call)
    requires PathOk(path) && c.WriteCall? && Balanced(c.value)
    ensures var f := RequestFrame(EncodeCall(invokeId, c), path);
            && ConfirmedService(f) == Some(SERVICE_WRITE_PROPERTY) && f.payload[2] == invokeId
            && ParseWrite(f.payload)
               == Returned(Some(Write(c.target, c.property, Widen(c.index), c.value, Widen(c.priority))))
  {
    hide ParseWrite, Target, Npdu, Enclosed, OptionalUnsigned, Balanced;
    WriteRequestRoundTrip(invokeId, c.target, c.property, c.value, c.priority, c.index);
  }

  lemma SameRequest(invokeId: Octet, c: Direct.Call)
    requires c.WriteCall?
    ensures EncodeCall(invokeId, c) == WriteRequest(invokeId, c.target, c.property, c.value, c.priority, c.index)
  {
  }

  lemma WriteMatches(s: State, invokeId: Octet, path: Path, c: Direct.Call)
    requires Invariant(s) && PathOk(path) && c.WriteCall? && CallOk(Abs(s), c)
    ensures Matches(s, invokeId, RequestFrame(EncodeCall(invokeId, c), path), c)
  {
    hide Direct.Relinquishes, ParseWrite, EncodeCall, Carries, IsAck, RequestFrame, RejectPdu, AbortPdu, Perform,
         Balanced, IsNull, Direct.DirectWrite, Abs, Invariant, FailureFor;
    InvariantWellFormed(s);
    var f := RequestFrame(EncodeCall(invokeId, c), path);
    WriteFrame(invokeId, path, c);
    FailureOfCall(s, f, c.target);
    CarriesShort(invokeId, c, SERVICE_WRITE_PROPERTY, REJECT_REASON_UNRECOGNIZED_SERVICE);
    CarriesShort(invokeId, c, SERVICE_WRITE_PROPERTY, ABORT_REASON_SEGMENTATION_NOT_SUPPORTED);
    AbsConfig(s);
    ParsedNullKnown(f.payload);
    var w := Write(c.target, c.property, Widen(c.index), c.value, Widen(c.priority));
    var isNull := IsNull(c.value).value;
    Direct.NullOctets(c.value);
    FrameEffect(s, f);
    var t := AnswerFrame(s, f).0;
    if Reaching(s, f).Some? {
      PerformMatches(s, invokeId, c, w, isNull);
      AbsOfLogs(Perform(s, invokeId, w, isNull).0, t);
    } else {
      AbsOfLogs(s, t);
    }
  }

  predicate SameWrite(c: Direct.Call, w: Write) {
    c.WriteCall? && w == Write(c.target, c.property, Widen(c.index), c.value, Widen(c.priority))
  }

  ghost predicate PerformedAs(s: State, invokeId: Octet, c: Direct.Call, w: Write, isNull: bool)
    requires WellFormed(s) && SameWrite(c, w)
  {
    var (t, r) := Perform(s, invokeId, w, isNull);
    var (q, reply) := Direct.DirectWrite(Abs(s), c.target, c.property, c.value, c.priority);
    Conveys(invokeId, c, r, reply, SizeOf(Abs(s), c, reply)) && Abs(t) == q
  }

  lemma PerformMatches(s: State, invokeId: Octet, c: Direct.Call, w: Write, isNull: bool)
    requires Invariant(s) && WellFormed(s) && SameWrite(c, w) && CallOk(Abs(s), c)
    requires IsNull(c.value) == Returned(isNull) && isNull == Direct.Relinquishes(c.value)
    ensures PerformedAs(s, invokeId, c, w, isNull)
  {
    hide PerformedAs, Invariant, CallOk, IsNull, ErrorPdu, Direct.Relinquishes;
    CarriesShort(invokeId, c, SERVICE_WRITE_PROPERTY, 0);
    CarriesError(invokeId, c, SERVICE_WRITE_PROPERTY, ERROR_CLASS_OBJECT, ERROR_CODE_UNKNOWN_OBJECT);
    CarriesError(invokeId, c, SERVICE_WRITE_PROPERTY, ERROR_CLASS_PROPERTY, ERROR_CODE_WRITE_ACCESS_DENIED);
    if Commanded(s, w) {
      CommandMatches(s, invokeId, c, w, isNull);
    } else {
      StoreMatches(s, invokeId, c, w, isNull);
    }
  }

  /** The acknowledgement and the two refusals a write can get carry what they say. */
  predicate WriteReplies(invokeId: Octet, c: Direct.Call) {
    && Carries(invokeId, c, SimpleAck(invokeId, SERVICE_WRITE_PROPERTY), Direct.Acked)
    && |SimpleAck(invokeId, SERVICE_WRITE_PROPERTY)| == 3
    && |WriteError(invokeId, ERROR_CLASS_OBJECT, ERROR_CODE_UNKNOWN_OBJECT)| == 7
    && |WriteError(invokeId, ERROR_CLASS_PROPERTY, ERROR_CODE_WRITE_ACCESS_DENIED)| == 7
    && Carries(invokeId, c, WriteError(invokeId, ERROR_CLASS_OBJECT, ERROR_CODE_UNKNOWN_OBJECT),
               Direct.Refusal(ERROR_CLASS_OBJECT, ERROR_CODE_UNKNOWN_OBJECT))
    && Carries(invokeId, c, WriteError(invokeId, ERROR_CLASS_PROPERTY, ERROR_CODE_WRITE_ACCESS_DENIED),
               Direct.Refusal(ERROR_CLASS_PROPERTY, ERROR_CODE_WRITE_ACCESS_DENIED))
  }

  lemma CommandMatches(s: State, invokeId: Octet, c: Direct.Call, w: Write, isNull: bool)
    requires WellFormed(s) && SameWrite(c, w) && Commanded(s, w) && CallOk(Abs(s), c)
    requires isNull == Direct.Relinquishes(c.value) && WriteReplies(invokeId, c)
    ensures PerformedAs(s, invokeId, c, w, isNull)
  {
    hide Carries, IsAck, SimpleAck, ErrorPdu, Balanced, Direct.Relinquishes, Command, TableOf;
    AbsOfCommand(s, w, isNull);
    CommandRaises(s, w, isNull);
  }

  /** Of an object that is not commandable, or a property that is not its Present_Value, both sides see the same. */
  lemma SameProperties(s: State, o: ObjectId, property: U32)
    requires !(IsCommandable(s, o) && property == PROPERTY_PRESENT_VALUE)
    ensures o in Abs(s).values <==> o in s.objects
    ensures o in s.objects ==> (property in Abs(s).values[o] <==> property in s.objects[o])
  {
    hide TableOf;
  }

  lemma StoreMatches(s: State, invokeId: Octet, c: Direct.Call, w: Write, isNull: bool)
    requires WellFormed(s) && SameWrite(c, w) && !Commanded(s, w)
    requires isNull == Direct.Relinquishes(c.value) && WriteReplies(invokeId, c)
    ensures PerformedAs(s, invokeId, c, w, isNull)
  {
    hide Carries, IsAck, SimpleAck, WriteError, Direct.Relinquishes, SetProperty, Abs;
    AbsConfig(s);
    SameProperties(s, c.target, c.property);
    if c.target in s.objects && Allowed(s, w) {
      AbsOfStore(s, c.target, c.property, c.value);
    }
  }

  lemma MultipleMatches(s: State, invokeId: Octet, path: Path, c: Direct.Call)
    requires Invariant(s) && PathOk(path) && c.MultipleCall?
    ensures Matches(s, invokeId, RequestFrame(EncodeCall(invokeId, c), path), c)
  {
    hide ReadSpecifications, Serve, FoldMembers, ParseResults, Snapshot, EncodeSpecifications, Balanced, AllBalanced,
         BalancedSlots, Effective, Abs, Direct.Visible, Npdu, EncodeResults, InRange, Slice;
    var f := RequestFrame(EncodeCall(invokeId, c), path);
    ReadMultipleRoundTrip(invokeId, c.specs, s.objects);
    VisibleOfAbs(s);
    AbsConfig(s);
    var t := AnswerFrame(s, f).0;
    assert SameButLogs(s, t);
    AbsOfLogs(s, t);
  }

  /** A request the caller may make commands no priority past 16. */
  lemma CallLegal(s: State, invokeId: Octet, path: Path, c: Direct.Call)
    requires PathOk(path) && CallOk(Abs(s), c)
    ensures LegalHere(s, RequestFrame(EncodeCall(invokeId, c), path))
  {
    hide ParseWrite, FailureFor, Balanced, Npdu, Target, Enclosed, EncodeSpecifications, Flat;
    if c.WriteCall? {
      WriteFrame(invokeId, path, c);
    }
  }

  /** Served as it arrives, any call gets the direct call's answer and has its effect. */
  lemma CallServed(s: State, invokeId: Octet, path: Path, c: Direct.Call)
    requires Invariant(s) && PathOk(path) && WellFormed(s) && CallOk(Abs(s), c)
    ensures var f := RequestFrame(EncodeCall(invokeId, c), path);
            && Matches(s, invokeId, f, c) && Invariant(AnswerFrame(s, f).0) && AnswerFrame(s, f).0.config == s.config
  {
    hide EncodeCall, AnswerFrame, RequestFrame, Invariant, CallOk, Matches, LegalHere;
    match c {
      case ReadCall(_, _, _) => ReadMatches(s, invokeId, path, c);
      case WriteCall(_, _, _, _, _) => WriteMatches(s, invokeId, path, c);
      case MultipleCall(_) => MultipleMatches(s, invokeId, path, c);
    }
    var f := RequestFrame(EncodeCall(invokeId, c), path);
    CallLegal(s, invokeId, path, c);
    FrameKeepsInvariant(s, f);
    FrameConfig(s, f);
  }

  // -- sessions -------------------------------------------------------------------------

  /** The octets of the headers of a reply: back through a router they name the SNET/SADR of the request. */
  function ReplyHeaders(path: Path): nat { if path.Relayed? then 10 + |path.sadr| else 6 }

  /** The request, and the plain reply if there is one, fit the receive buffer. */
  predicate Fits(p: Direct.Plain, path: Path, c: Direct.Call)
    requires |p.config.objectName| < 253 && PathOk(path)
  {
    var reply := Direct.Perform(p, c).1;
    && 4 + |Npdu(EncodeCall(0, c), RequestNpci(path))| <= RECEIVE_BUFFER
    && (reply != Direct.NoAnswer ==> ReplyHeaders(path) + SizeOf(p, c, reply) <= RECEIVE_BUFFER)
  }

  lemma SameSize(invokeId: Octet, c: Direct.Call, path: Path)
    requires PathOk(path)
    ensures |Npdu(EncodeCall(invokeId, c), RequestNpci(path))| == |Npdu(EncodeCall(0, c), RequestNpci(path))|
  {
    hide Target, Enclosed, OptionalUnsigned, EncodeSpecifications, Npdu;
    HeaderOctets(RequestNpci(path));
  }

  lemma ReplyFits(apdu: Bytes, request: Bytes, path: Path)
    requires PathOk(path)
    ensures var n := ReplyNpci(RequestFrame(request, path));
            Packable(n) && 4 + |Npdu(apdu, n)| == ReplyHeaders(path) + |apdu|
  {
  }

  lemma WholeDatagram(npdu: Bytes)
    requires 4 + |npdu| <= RECEIVE_BUFFER
    ensures FitsBvll(npdu) && Received(Bvlc(npdu)) == Bvlc(npdu)
  {
  }

  lemma ReplyRead(invokeId: Octet, path: Path, c: Direct.Call, apdu: Bytes, reply: Direct.Reply)
    requires PathOk(path) && Carries(invokeId, c, apdu, reply)
    ensures Matching(ReplyFrame(apdu, path), invokeId) == Returned(true)
    ensures Interpret(c, ReplyFrame(apdu, path)) == Returned(reply)
  {
    hide Npdu, ReadValue, ParseResults, ErrorClassAndCode;
  }

  /** One call over the wire, straight or through a router: the client gets the direct call's reply, and the
      server's objects are then those of the direct call. */
  lemma CallRefines(s: State, invokeId: Octet, path: Path, c: Direct.Call)
    requires Invariant(s) && PathOk(path) && WellFormed(s) && CallOk(Abs(s), c) && Fits(Abs(s), path, c)
    ensures var (t, r) := WireCall(s, invokeId, path, c);
            var (q, reply) := Direct.Perform(Abs(s), c);
            r == Returned(reply) && Abs(t) == q && Invariant(t) && t.config == s.config
  {
    hide EncodeCall, AnswerFrame, Interpret, FrameOf, Npdu, Bvlc, RequestFrame, ReplyFrame, Direct.Perform, Abs,
         Invariant, CallOk, Received, Carries, IsAck, Matching, ReplyNpci;
    AbsConfig(s);
    var request := EncodeCall(invokeId, c);
    var f := RequestFrame(request, path);
    CallServed(s, invokeId, path, c);
    var (t, r) := AnswerFrame(s, f);
    var reply := Direct.Perform(Abs(s), c).1;
    SameSize(invokeId, c, path);
    WholeDatagram(Npdu(request, RequestNpci(path)));
    var apdu := if r.value.Some? then r.value.value else [];
    Transported(request, apdu, path);
    RequestIsServed(s, request, path);
    if r.value.Some? {
      ReplyFits(apdu, request, path);
      WholeDatagram(Npdu(apdu, ReplyNpci(f)));
      ReplyRead(invokeId, path, c, apdu, reply);
    }
  }

  lemma RequestIsServed(s: State, request: Bytes, path: Path)
    requires WellFormed(s) && PathOk(path)
    ensures ServeFrame(s, RequestFrame(request, path)) == AnswerFrame(s, RequestFrame(request, path))
  {
    hide AnswerFrame, Npdu;
  }

  /** A session over the wire: each call has the next invoke id, modulo 256. */
  function WireSession(s: State, invokeId: nat, path: Path, turns: seq<Direct.Turn>)
    : (State, seq<Outcome<Direct.Reply>>)
    requires WellFormed(s) && PathOk(path)
    decreases |turns|
  {
    if turns == [] then (s, []) else
    match turns[0]
    case Configure(script) => WireSession(s.(script := script), invokeId, path, turns[1..])
    case Make(c) =>
      var (t, r) := WireCall(s, IdOf(invokeId + 1), path, c);
      var (u, replies) := WireSession(t, invokeId + 1, path, turns[1..]);
      (u, [r] + replies)
  }

  /** Every call of the session is one the caller may make, and its datagrams fit. */
  predicate SessionOk(p: Direct.Plain, path: Path, turns: seq<Direct.Turn>)
    requires |p.config.objectName| < 253 && PathOk(path)
    decreases |turns|
  {
    turns == [] ||
    match turns[0]
    case Configure(script) => SessionOk(p.(script := script), path, turns[1..])
    case Make(c) => CallOk(p, c) && Fits(p, path, c) && SessionOk(Direct.Perform(p, c).0, path, turns[1..])
  }

  function Returns(replies: seq<Direct.Reply>): seq<Outcome<Direct.Reply>> {
    if replies == [] then [] else [Returned(replies[0])] + Returns(replies[1..])
  }

  lemma AbsOfScript(s: State, script: Script)
    ensures Abs(s.(script := script)) == Abs(s).(script := script)
  {
    hide TableOf;
    var p, q := Abs(s.(script := script)), Abs(s);
    assert p.values == q.values;
  }

  /** Any sequence of ReadProperty, WriteProperty and ReadPropertyMultiple calls, with the mode and scripted
      failures changed anywhere between them: the client gets exactly the replies that plain property maps
      and tables of priorities give, and the server ends with them. */
  lemma {:induction false} SessionRefines(s: State, invokeId: nat, path: Path, turns: seq<Direct.Turn>)
    requires Invariant(s) && PathOk(path) && WellFormed(s) && SessionOk(Abs(s), path, turns)
    ensures var (t, r) := WireSession(s, invokeId, path, turns);
            var (q, replies) := Direct.Session(Abs(s), turns);
            r == Returns(replies) && Abs(t) == q && Invariant(t)
    decreases |turns|
  {
    hide WireCall, Direct.Perform, Abs, Invariant, Fits, CallOk;
    AbsConfig(s);
    if turns != [] {
      match turns[0] {
        case Configure(script) =>
          ScriptKeepsInvariant(s, script);
          AbsOfScript(s, script);
          SessionRefines(s.(script := script), invokeId, path, turns[1..]);
        case Make(c) =>
          CallRefines(s, IdOf(invokeId + 1), path, c);
          var t := WireCall(s, IdOf(invokeId + 1), path, c).0;
          SessionRefines(t, invokeId + 1, path, turns[1..]);
          var replies := Direct.Session(Abs(s), turns).1;
          assert replies[1..] == Direct.Session(Abs(t), turns[1..]).1;
      }
    }
  }
}
