/** The ReadProperty, WriteProperty and Error APDUs (clauses 15.5, 15.9 and 20.1.7): encoders,
    parsers, and exactly when a parser recovers what was encoded. */
module Requests {
  import opened Octets
  import opened Tags
  import opened Constructed

  type ObjectType = n: nat | n < 1024
  type Instance = n: nat | n <= 0x3FFFFF

  datatype ObjectId = ObjectId(objectType: ObjectType, instance: Instance)

  const MAX_INSTANCE: Instance := 0x3FFFFF
  const OBJECT_TYPE_DEVICE: ObjectType := 8

  const SERVICE_READ_PROPERTY: Octet := 12
  const SERVICE_READ_PROPERTY_MULTIPLE: Octet := 14
  const SERVICE_WRITE_PROPERTY: Octet := 15

  const PROPERTY_OBJECT_IDENTIFIER := 75
  const PROPERTY_OBJECT_NAME := 77
  const PROPERTY_PRESENT_VALUE := 85

  const ERROR_CLASS_OBJECT := 1
  const ERROR_CLASS_PROPERTY := 2
  const ERROR_CODE_UNKNOWN_OBJECT := 31
  const ERROR_CODE_UNKNOWN_PROPERTY := 32
  const ERROR_CODE_WRITE_ACCESS_DENIED := 40
  const ERROR_CODE_INVALID_ARRAY_INDEX := 42

  /** Requests are numbered from 1; their invoke ids run modulo 256. */
  function IdOf(n: nat): Octet { n % 256 }

  // -- object identifiers --------------------------------------------------------

  function ObjectIdBytes(o: ObjectId): Bytes { U32Bytes(o.objectType * 0x400000 + o.instance) }

  function SplitObjectId(raw: U32): ObjectId { ObjectId(raw / 0x400000, raw % 0x400000) }

  function UnpackObjectId(body: Bytes): Outcome<ObjectId> {
    if |body| != 4 then Raised(StructError) else
    FromBytesOfU32(body);
    Returned(SplitObjectId(FromBytes(body)))
  }

  lemma ObjectIdRoundTrip(o: ObjectId)
    ensures UnpackObjectId(ObjectIdBytes(o)) == Returned(o)
  {
    hide FromBytes, U32Bytes, SplitObjectId;
    U32RoundTrip(o.objectType * 0x400000 + o.instance);
    SplitJoin(o);
  }

  lemma SplitJoin(o: ObjectId)
    ensures SplitObjectId(o.objectType * 0x400000 + o.instance) == o
  {
  }

  function ContextObjectId(tag: TagNumber, o: ObjectId): Bytes { Primitive(tag, true, ObjectIdBytes(o)) }

  function ApplicationObjectId(o: ObjectId): Bytes { Primitive(12, false, ObjectIdBytes(o)) }

  lemma ReadContextObjectId(tag: TagNumber, o: ObjectId, a: Bytes, at: nat)
    requires Occurs(ContextObjectId(tag, o), a, at)
    ensures ReadTag(a, at)
            == Returned(Tag(tag, true, Value, ObjectIdBytes(o), at + |ContextObjectId(tag, o)|))
    ensures UnpackObjectId(ObjectIdBytes(o)) == Returned(o)
  {
    ReadPrimitiveAt(tag, true, ObjectIdBytes(o), a, at);
    ObjectIdRoundTrip(o);
  }

  lemma ReadContextUnsigned(tag: TagNumber, v: U32, a: Bytes, at: nat)
    requires Occurs(ContextUnsigned(tag, v), a, at)
    ensures ReadTag(a, at)
            == Returned(Tag(tag, true, Value, UnsignedOctets(v), at + |ContextUnsigned(tag, v)|))
    ensures FromBytes(UnsignedOctets(v)) == v
  {
    ReadPrimitiveAt(tag, true, UnsignedOctets(v), a, at);
    UnsignedRoundTrip(v);
  }

  function OptionalUnsigned(tag: TagNumber, v: Option<U32>): Bytes {
    if v.Some? then ContextUnsigned(tag, v.value) else []
  }

  // -- encoders --------------------------------------------------------------------

  function ConfirmedRequest(invokeId: Octet, service: Octet, parameters: Bytes): Bytes {
    [0x00, 0x05, invokeId, service] + parameters
  }

  /** The object, property and optional array index every one of these APDUs starts with. */
  function Target(o: ObjectId, property: U32, index: Option<U32>): Bytes {
    ContextObjectId(0, o) + ContextUnsigned(1, property) + OptionalUnsigned(2, index)
  }

  function Enclosed(tag: TagNumber, value: Bytes): Bytes { Opening(tag) + value + Closing(tag) }

  lemma EnclosedLength(tag: TagNumber, value: Bytes)
    ensures |Enclosed(tag, value)| == |value| + 2
  {
  }

  function ReadRequest(invokeId: Octet, o: ObjectId, property: U32, index: Option<U32>): Bytes {
    ConfirmedRequest(invokeId, SERVICE_READ_PROPERTY, Target(o, property, index))
  }

  function WriteRequest(invokeId: Octet, o: ObjectId, property: U32, value: Bytes, priority: Option<U32>,
                        index: Option<U32>): Bytes {
    ConfirmedRequest(invokeId, SERVICE_WRITE_PROPERTY,
                     Target(o, property, index) + Enclosed(3, value) + OptionalUnsigned(4, priority))
  }

  function ReadAck(invokeId: Octet, o: ObjectId, property: U32, index: Option<U32>, value: Bytes): Bytes {
    [0x30, invokeId, SERVICE_READ_PROPERTY] + (Target(o, property, index) + Enclosed(3, value))
  }

  function SimpleAck(invokeId: Octet, service: Octet): Bytes { [0x20, invokeId, service] }

  function RejectPdu(invokeId: Octet, reason: Octet): Bytes { [0x60, invokeId, reason] }

  /** An Abort from a server: the SRV bit is set. */
  function AbortPdu(invokeId: Octet, reason: Octet): Bytes { [0x71, invokeId, reason] }

  function ErrorPdu(invokeId: Octet, service: Octet, errorClass: U32, errorCode: U32): Bytes {
    [0x50, invokeId, service] + (ApplicationEnumerated(errorClass) + ApplicationEnumerated(errorCode))
  }

  // -- parsers -----------------------------------------------------------------------

  /** The two failures the parsers catch become None; any other escapes. */
  function Guarded<T>(o: Outcome<Option<T>>): Outcome<Option<T>> {
    if o.Caught() then Returned(None) else o
  }

  /** The object and property of a request, and where its parameters go on. */
  function ParseTarget(apdu: Bytes): Outcome<(ObjectId, nat, nat)> {
    var t0 :- ReadTag(apdu, 4);
    var o :- UnpackObjectId(t0.body);
    var t1 :- ReadTag(apdu, t0.next);
    Returned((o, FromBytes(t1.body), t1.next))
  }

  function ParseRead(apdu: Bytes): Outcome<Option<(ObjectId, nat)>> {
    match ParseTarget(apdu)
    case Returned((o, property, _)) => Returned(Some((o, property)))
    case Raised(e) => Guarded(Raised(e))
  }

  function ParseIndexedReadRaw(apdu: Bytes): Outcome<Option<(ObjectId, nat, Option<nat>)>> {
    var (o, property, position) :- ParseTarget(apdu);
    if position < |apdu| then
      var t :- ReadTag(apdu, position);
      Returned(Some((o, property,
                     if t.isContext && t.number == 2 && t.kind == Value then Some(FromBytes(t.body)) else None)))
    else Returned(Some((o, property, None)))
  }

  function ParseIndexedRead(apdu: Bytes): Outcome<Option<(ObjectId, nat, Option<nat>)>> {
    Guarded(ParseIndexedReadRaw(apdu))
  }

  datatype Write = Write(target: ObjectId, property: nat, arrayIndex: Option<nat>, value: Bytes,
                         priority: Option<nat>)

  /** [2] array index, if it is there, and the position after the [3] opening tag. */
  function ParseIndexAndOpening(apdu: Bytes, position: nat): Outcome<(Option<nat>, nat)> {
    var t2 :- ReadTag(apdu, position);
    var indexed := t2.number == 2 && t2.kind == Value;
    var t3 :- ReadTag(apdu, if indexed then t2.next else position);
    Returned((if indexed then Some(FromBytes(t2.body)) else None, t3.next))
  }

  function ParsePriority(apdu: Bytes, position: nat): Outcome<Option<nat>> {
    if position < |apdu| then
      var t4 :- ReadTag(apdu, position);
      Returned(Some(FromBytes(t4.body)))
    else Returned(None)
  }

  function ParseWriteParameters(apdu: Bytes): Outcome<Option<Write>> {
    var (o, property, position) :- ParseTarget(apdu);
    var (index, start) :- ParseIndexAndOpening(apdu, position);
    var (value, after) :- BodyOf(apdu, start);
    var priority :- ParsePriority(apdu, after);
    Returned(Some(Write(o, property, index, value, priority)))
  }

  function ParseWrite(apdu: Bytes): Outcome<Option<Write>> {
    if |apdu| == 0 || apdu[0] / 16 != 0 || |apdu| < 4 || apdu[3] != SERVICE_WRITE_PROPERTY then Returned(None)
    else Guarded(ParseWriteParameters(apdu))
  }

  /** `parse_write_property_request` with its depth loop. The first two tests and the short
      frames they trip over all give None. */
  method ParseWriteProperty(apdu: Bytes) returns (r: Outcome<Option<Write>>)
    ensures r == ParseWrite(apdu)
  {
    if |apdu| == 0 || apdu[0] / 16 != 0 || |apdu| < 4 || apdu[3] != SERVICE_WRITE_PROPERTY {
      return Returned(None);
    }
    hide ReadTag, UnpackObjectId;
    var target := ParseTarget(apdu);
    if target.Raised? {
      return Guarded(Raised(target.error));
    }
    var entered := ParseIndexAndOpening(apdu, target.value.2);
    if entered.Raised? {
      return Guarded(Raised(entered.error));
    }
    var start := entered.value.1;
    var position, tagStart := start, start;
    var depth: nat := 1;
    while depth > 0
      invariant start <= position && start <= tagStart <= |apdu| + start
      invariant depth > 0 ==> Scan(apdu, start, 1) == Scan(apdu, position, depth)
      invariant depth == 0 ==>
                  tagStart <= |apdu| && BodyOf(apdu, start) == Returned((apdu[start..tagStart], position))
      decreases depth > 0, Left(apdu, position)
    {
      tagStart := position;
      var t := ReadTag(apdu, position);
      if t.Raised? {
        return Guarded(Raised(t.error));
      }
      position := t.value.next;
      depth := match t.value.kind case Open => depth + 1 case Close => depth - 1 case Value => depth;
    }
    var priority := ParsePriority(apdu, position);
    if priority.Raised? {
      return Guarded(Raised(priority.error));
    }
    return Returned(Some(Write(target.value.0, target.value.1, entered.value.0, apdu[start..tagStart],
                               priority.value)));
  }

  /** Where the contents of the first [3] from `position` on start, or None. */
  function FirstOpening(apdu: Bytes, position: nat): Outcome<Option<nat>>
    decreases Left(apdu, position)
  {
    if position >= |apdu| then Returned(None) else
    var t :- ReadTag(apdu, position);
    if t.isContext && t.number == 3 && t.kind == Open then Returned(Some(t.next)) else FirstOpening(apdu, t.next)
  }

  /** The contents of the first [3] from `position` on, or None. */
  function ReadValue(apdu: Bytes, position: nat): Outcome<Option<Bytes>> {
    var start :- FirstOpening(apdu, position);
    if start.None? then Returned(None) else
    var (value, _) :- BodyOf(apdu, start.value);
    Returned(Some(value))
  }

  /** `read_property_value`, both loops. */
  method ReadPropertyValue(apdu: Bytes) returns (r: Outcome<Option<Bytes>>)
    ensures r == ReadValue(apdu, 3)
  {
    hide ReadTag;
    var position: nat := 3;
    while position < |apdu|
      invariant ReadValue(apdu, 3) == ReadValue(apdu, position)
      decreases Left(apdu, position)
    {
      var t := ReadTag(apdu, position);
      if t.Raised? {
        return Raised(t.error);
      }
      position := t.value.next;
      if t.value.isContext && t.value.number == 3 && t.value.kind == Open {
        var start := position;
        var depth: nat := 1;
        while depth > 0
          invariant start <= position && depth > 0
          invariant Scan(apdu, start, 1) == Scan(apdu, position, depth)
          decreases Left(apdu, position)
        {
          var tagStart := position;
          var u := ReadTag(apdu, position);
          if u.Raised? {
            return Raised(u.error);
          }
          position := u.value.next;
          if u.value.kind == Open {
            depth := depth + 1;
          } else if u.value.kind == Close {
            if depth == 1 {
              return Returned(Some(apdu[start..tagStart]));
            }
            depth := depth - 1;
          }
        }
      }
    }
    return Returned(None);
  }

  /** Every application-tagged primitive from `position` on: its tag number and contents. */
  function ApplicationValues(octets: Bytes, position: nat): Outcome<seq<(nat, Bytes)>>
    decreases Left(octets, position)
  {
    if position >= |octets| then Returned([]) else
    var t :- ReadTag(octets, position);
    var rest :- ApplicationValues(octets, t.next);
    Returned(if t.kind == Value && !t.isContext then [(t.number, t.body)] + rest else rest)
  }

  function ErrorClassAndCode(apdu: Bytes): Outcome<Option<(nat, nat)>> {
    var values :- ApplicationValues(Slice(apdu, 3, |apdu|), 0);
    if |values| < 2 then Returned(None)
    else Returned(Some((FromBytes(values[0].1), FromBytes(values[1].1))))
  }

  // -- round trips ---------------------------------------------------------------------

  lemma ReadTarget(o: ObjectId, property: U32, index: Option<U32>, a: Bytes)
    requires Occurs(Target(o, property, index), a, 4)
    ensures var p := 4 + |ContextObjectId(0, o)| + |ContextUnsigned(1, property)|;
            && ParseTarget(a) == Returned((o, property as nat, p))
            && Occurs(OptionalUnsigned(2, index), a, p)
  {
    hide ReadTag, Occurs, ContextObjectId, ContextUnsigned, UnpackObjectId, ObjectIdBytes, FromBytes, UnsignedOctets;
    OccursSplit(ContextObjectId(0, o) + ContextUnsigned(1, property), OptionalUnsigned(2, index), a, 4);
    OccursSplit(ContextObjectId(0, o), ContextUnsigned(1, property), a, 4);
    ReadContextObjectId(0, o, a, 4);
    ReadContextUnsigned(1, property, a, 4 + |ContextObjectId(0, o)|);
  }

  /** Clause 15.5: the parsers recover object, property and optional array index. */
  lemma ReadRequestRoundTrip(invokeId: Octet, o: ObjectId, property: U32, index: Option<U32>)
    ensures var apdu := ReadRequest(invokeId, o, property, index);
            && ParseRead(apdu) == Returned(Some((o, property as nat)))
            && ParseIndexedRead(apdu)
               == Returned(Some((o, property as nat, if index.Some? then Some(index.value as nat) else None)))
  {
    hide ReadTag, ParseTarget, Target, FromBytes, ContextUnsigned, ContextObjectId;
    var apdu := ReadRequest(invokeId, o, property, index);
    var target := Target(o, property, index);
    OccursIn([0x00, 0x05, invokeId, SERVICE_READ_PROPERTY], target, []);
    assert apdu + [] == apdu;
    ReadTarget(o, property, index, apdu);
    TargetLength(o, property, index);
    if index.Some? {
      ReadContextUnsigned(2, index.value, apdu, |apdu| - |ContextUnsigned(2, index.value)|);
    }
  }

  lemma TargetLength(o: ObjectId, property: U32, index: Option<U32>)
    ensures |Target(o, property, index)|
            == |ContextObjectId(0, o)| + |ContextUnsigned(1, property)| + |OptionalUnsigned(2, index)|
  {
  }

  lemma ReadIndexAndOpening(index: Option<U32>, value: Bytes, a: Bytes, at: nat)
    requires Occurs(OptionalUnsigned(2, index), a, at)
    requires Occurs(Enclosed(3, value), a, at + |OptionalUnsigned(2, index)|)
    ensures var start := at + |OptionalUnsigned(2, index)| + 1;
            && ParseIndexAndOpening(a, at)
               == Returned((if index.Some? then Some(index.value as nat) else None, start))
            && Occurs(value, a, start)
            && ReadTag(a, start + |value|) == Returned(Tag(3, true, Close, [], start + |value| + 1))
  {
    hide ReadTag, FromBytes, ContextUnsigned;
    var p := at + |OptionalUnsigned(2, index)|;
    ReadEnclosed(3, value, a, p);
    if index.Some? {
      ReadContextUnsigned(2, index.value, a, at);
    }
  }

  lemma ReadEnclosed(tag: TagNumber, value: Bytes, a: Bytes, at: nat)
    requires Occurs(Enclosed(tag, value), a, at)
    ensures ReadTag(a, at) == Returned(Tag(tag, true, Open, [], at + 1))
    ensures Occurs(value, a, at + 1)
    ensures ReadTag(a, at + 1 + |value|) == Returned(Tag(tag, true, Close, [], at + 2 + |value|))
  {
    hide ReadTag;
    OccursSplit(Opening(tag) + value, Closing(tag), a, at);
    OccursSplit(Opening(tag), value, a, at);
    OccursAt(Opening(tag), a, at, 0);
    OccursAt(Closing(tag), a, at + 1 + |value|, 0);
    ReadOpening(tag, a, at);
    ReadClosing(tag, a, at + 1 + |value|);
  }

  /** Clause 15.9: the parser inverts the encoder, absent optionals included, exactly for the values
      whose tags are balanced, whatever they nest. */
  lemma WriteRequestRoundTrip(invokeId: Octet, o: ObjectId, property: U32, value: Bytes,
                              priority: Option<U32>, index: Option<U32>)
    ensures ParseWrite(WriteRequest(invokeId, o, property, value, priority, index))
            == Returned(Some(Write(o, property, Widen(index), value, Widen(priority))))
            <==> Balanced(value)
  {
    hide ReadTag, ParseTarget, ParseIndexAndOpening, BodyOf, Balanced, ParsePriority, Target, Enclosed,
         OptionalUnsigned, Occurs, TargetPosition, FromBytes;
    var apdu := WriteRequest(invokeId, o, property, value, priority, index);
    var start := TargetPosition(o, property, index) + 1;
    WriteRequestParts(invokeId, o, property, value, priority, index);
    BodyOfBalanced(value, apdu, start);
    if Balanced(value) {
      ReadPriority(priority, apdu, start + |value| + 1);
    }
  }

  function Widen(v: Option<U32>): Option<nat> { if v.Some? then Some(v.value as nat) else None }

  function TargetPosition(o: ObjectId, property: U32, index: Option<U32>): nat {
    4 + |ContextObjectId(0, o)| + |ContextUnsigned(1, property)| + |OptionalUnsigned(2, index)|
  }

  lemma WriteRequestParts(invokeId: Octet, o: ObjectId, property: U32, value: Bytes,
                          priority: Option<U32>, index: Option<U32>)
    ensures var apdu := WriteRequest(invokeId, o, property, value, priority, index);
            var start := TargetPosition(o, property, index) + 1;
            var position := start - 1 - |OptionalUnsigned(2, index)|;
            && ParseTarget(apdu) == Returned((o, property as nat, position))
            && ParseIndexAndOpening(apdu, position) == Returned((Widen(index), start))
            && Occurs(value, apdu, start)
            && ReadTag(apdu, start + |value|) == Returned(Tag(3, true, Close, [], start + |value| + 1))
            && Occurs(OptionalUnsigned(4, priority), apdu, start + |value| + 1)
            && |apdu| == start + |value| + 1 + |OptionalUnsigned(4, priority)|
  {
    hide ReadTag, ParseTarget, ParseIndexAndOpening, OptionalUnsigned, Occurs, ContextObjectId, ContextUnsigned,
         Opening, Closing;
    var apdu := WriteRequest(invokeId, o, property, value, priority, index);
    var head, target := [0x00, 0x05, invokeId, SERVICE_WRITE_PROPERTY], Target(o, property, index);
    var parameters := target + Enclosed(3, value) + OptionalUnsigned(4, priority);
    OccursIn(head, parameters, []);
    assert head + parameters + [] == apdu;
    OccursSplit(target + Enclosed(3, value), OptionalUnsigned(4, priority), apdu, 4);
    OccursSplit(target, Enclosed(3, value), apdu, 4);
    TargetLength(o, property, index);
    ReadTarget(o, property, index, apdu);
    ReadIndexAndOpening(index, value, apdu, 4 + |ContextObjectId(0, o)| + |ContextUnsigned(1, property)|);
    assert |Opening(3)| == 1 == |Closing(3)| by {
      OneOctet();
    }
  }

  lemma OneOctet()
    ensures |Opening(3)| == 1 == |Closing(3)|
  {
  }

  lemma ReadPriority(priority: Option<U32>, a: Bytes, at: nat)
    requires Occurs(OptionalUnsigned(4, priority), a, at) && |a| == at + |OptionalUnsigned(4, priority)|
    ensures ParsePriority(a, at) == Returned(Widen(priority))
  {
    hide ReadTag, FromBytes;
    if priority.Some? {
      ReadContextUnsigned(4, priority.value, a, at);
    }
  }

  /** Clause 15.5: the client finds the value octets in an ACK, with or without an array index,
      exactly when they are balanced. */
  lemma ReadAckRoundTrip(invokeId: Octet, o: ObjectId, property: U32, index: Option<U32>, value: Bytes)
    ensures ReadValue(ReadAck(invokeId, o, property, index, value), 3) == Returned(Some(value))
            <==> Balanced(value)
  {
    hide ReadTag, BodyOf, Balanced, Target, Enclosed, Occurs, ContextUnsigned, ContextObjectId;
    var apdu := ReadAck(invokeId, o, property, index, value);
    var head, target := [0x30, invokeId, SERVICE_READ_PROPERTY], Target(o, property, index);
    OccursIn(head, target + Enclosed(3, value), []);
    assert head + (target + Enclosed(3, value)) + [] == apdu;
    OccursSplit(target, Enclosed(3, value), apdu, 3);
    SkipTarget(o, property, index, apdu, 3);
    var at := 3 + |target|;
    ReadEnclosed(3, value, apdu, at);
    BodyOfBalanced(value, apdu, at + 1);
  }

  lemma SkipTarget(o: ObjectId, property: U32, index: Option<U32>, a: Bytes, at: nat)
    requires Occurs(Target(o, property, index), a, at)
    ensures FirstOpening(a, at) == FirstOpening(a, at + |Target(o, property, index)|)
  {
    hide ReadTag, Occurs, ContextObjectId, ContextUnsigned, BodyOf, FromBytes, UnsignedOctets, ObjectIdBytes;
    OccursSplit(ContextObjectId(0, o) + ContextUnsigned(1, property), OptionalUnsigned(2, index), a, at);
    OccursSplit(ContextObjectId(0, o), ContextUnsigned(1, property), a, at);
    ReadContextObjectId(0, o, a, at);
    var p := at + |ContextObjectId(0, o)|;
    ReadContextUnsigned(1, property, a, p);
    var q := p + |ContextUnsigned(1, property)|;
    if index.Some? {
      ReadContextUnsigned(2, index.value, a, q);
      assert FirstOpening(a, q) == FirstOpening(a, q + |ContextUnsigned(2, index.value)|);
    }
  }

  /** Two application-tagged enumerations read back as themselves. */
  lemma TwoEnumerated(first: U32, second: U32)
    ensures ApplicationValues(ApplicationEnumerated(first) + ApplicationEnumerated(second), 0)
            == Returned([(9, UnsignedOctets(first)), (9, UnsignedOctets(second))])
    ensures FromBytes(UnsignedOctets(first)) == first && FromBytes(UnsignedOctets(second)) == second
  {
    hide ReadTag, FromBytes, UnsignedOctets, Primitive;
    var a := ApplicationEnumerated(first) + ApplicationEnumerated(second);
    OccursIn([], a, []);
    assert [] + a + [] == a;
    OccursSplit(ApplicationEnumerated(first), ApplicationEnumerated(second), a, 0);
    ReadPrimitiveAt(9, false, UnsignedOctets(first), a, 0);
    var p := |ApplicationEnumerated(first)|;
    ReadPrimitiveAt(9, false, UnsignedOctets(second), a, p);
    UnsignedRoundTrip(first);
    UnsignedRoundTrip(second);
    var last := [(9 as nat, UnsignedOctets(second))];
    assert last + [] == last;
    assert ApplicationValues(a, |a|) == Returned([]);
    assert ApplicationValues(a, p) == Returned(last);
    assert [(9 as nat, UnsignedOctets(first))] + last == [(9, UnsignedOctets(first)), (9, UnsignedOctets(second))];
  }

  /** Context-tagged primitives and opening and closing tags count for nothing among the values. */
  lemma ValuesPassOver(tag: TagNumber, body: Bytes, a: Bytes, at: nat)
    ensures |body| < 0x1_0000 && Occurs(Primitive(tag, true, body), a, at) ==>
              ApplicationValues(a, at) == ApplicationValues(a, at + |Primitive(tag, true, body)|)
    ensures Occurs(Opening(tag), a, at) ==> ApplicationValues(a, at) == ApplicationValues(a, at + 1)
    ensures Occurs(Closing(tag), a, at) ==> ApplicationValues(a, at) == ApplicationValues(a, at + 1)
  {
    hide ReadTag, Primitive;
    if |body| < 0x1_0000 && Occurs(Primitive(tag, true, body), a, at) {
      ReadPrimitiveAt(tag, true, body, a, at);
    }
    if Occurs(Opening(tag), a, at) {
      OccursAt(Opening(tag), a, at, 0);
      ReadOpening(tag, a, at);
    }
    if Occurs(Closing(tag), a, at) {
      OccursAt(Closing(tag), a, at, 0);
      ReadClosing(tag, a, at);
    }
  }

  /** Clause 20.1.7: an Error PDU gives back its class and code. */
  lemma ErrorRoundTrip(invokeId: Octet, service: Octet, errorClass: U32, errorCode: U32)
    ensures ErrorClassAndCode(ErrorPdu(invokeId, service, errorClass, errorCode))
            == Returned(Some((errorClass as nat, errorCode as nat)))
  {
    hide ApplicationValues, FromBytes, ApplicationEnumerated;
    var apdu := ErrorPdu(invokeId, service, errorClass, errorCode);
    TwoEnumerated(errorClass, errorCode);
    assert Slice(apdu, 3, |apdu|) == ApplicationEnumerated(errorClass) + ApplicationEnumerated(errorCode);
  }

  /** Every value a parsed write carries is balanced. */
  lemma ParsedValueBalanced(apdu: Bytes)
    requires ParseWrite(apdu).Returned? && ParseWrite(apdu).value.Some?
    ensures Balanced(ParseWrite(apdu).value.value.value)
    ensures |ParseWrite(apdu).value.value.value| <= |apdu|
  {
    hide ReadTag, ParseTarget, ParseIndexAndOpening, Balanced, ParsePriority, Scan;
    var (o, property, position) := ParseTarget(apdu).value;
    var (index, start) := ParseIndexAndOpening(apdu, position).value;
    BodyIsBalanced(apdu, start);
  }
}
