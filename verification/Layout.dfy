/** The messages octet by octet, as the clauses lay them out: what each encoder puts on the wire, without the encoders'
    own helpers. */
module Layout {
  import opened Octets
  import opened Tags
  import opened Requests
  import opened Multiple
  import opened BitStrings
  import opened Primitives
  import opened Server
  import opened Discovery
  import opened Notifications

  // -- tags (clause 20.2.1) -----------------------------------------------------------

  /** A context tag of up to four octets of contents, and an application tag. */
  function Context(tag: nat, body: Bytes): Bytes
    requires tag < 15 && |body| < 5
  {
    [tag * 16 + 8 + |body|] + body
  }

  function Application(tag: nat, body: Bytes): Bytes
    requires tag < 15 && |body| < 5
  {
    [tag * 16 + |body|] + body
  }

  /** An optional context-tagged number. */
  function Optional(tag: nat, v: Option<U32>): Bytes
    requires tag < 15
  {
    if v.Some? then Context(tag, UnsignedOctets(v.value)) else []
  }

  /** The three forms of the length of a primitive. */
  lemma PrimitiveLayout(tag: TagNumber, isContext: bool, body: Bytes)
    requires |body| < 0x1_0000
    ensures var first := tag * 16 + if isContext then 8 else 0;
            Primitive(tag, isContext, body)
            == (if |body| < 5 then [first + |body|]
                else if |body| < 254 then [first + 5, |body|]
                else [first + 5, 254, |body| / 256, |body| % 256]) + body
  {
  }

  /** Clause 20.2.14: ten bits of object type and 22 of instance, in four octets. */
  lemma ObjectIdLayout(o: ObjectId)
    ensures |ObjectIdBytes(o)| == 4 && FromBytes(ObjectIdBytes(o)) == o.objectType * 4194304 + o.instance
  {
    hide U32Bytes, FromBytes;
    U32RoundTrip(o.objectType * 0x400000 + o.instance);
  }

  lemma ContextNumber(tag: TagNumber, v: U32)
    ensures ContextUnsigned(tag, v) == Context(tag, UnsignedOctets(v))
  {
    hide UnsignedOctets;
  }

  lemma OptionalNumber(tag: TagNumber, v: Option<U32>)
    ensures OptionalUnsigned(tag, v) == Optional(tag, v)
  {
    hide UnsignedOctets, ContextUnsigned, Context;
    if v.Some? {
      ContextNumber(tag, v.value);
    }
  }

  lemma ContextIdentifier(tag: TagNumber, o: ObjectId)
    ensures ContextObjectId(tag, o) == Context(tag, ObjectIdBytes(o))
  {
    hide U32Bytes;
  }

  lemma EnclosedLayout(tag: TagNumber, value: Bytes)
    ensures Enclosed(tag, value) == [tag * 16 + 14] + value + [tag * 16 + 15]
  {
  }

  lemma TargetLayout(o: ObjectId, property: U32, index: Option<U32>)
    ensures Target(o, property, index)
            == Context(0, ObjectIdBytes(o)) + Context(1, UnsignedOctets(property)) + Optional(2, index)
  {
    hide ContextObjectId, ContextUnsigned, OptionalUnsigned, Context, Optional, UnsignedOctets, ObjectIdBytes;
    ContextIdentifier(0, o);
    ContextNumber(1, property);
    OptionalNumber(2, index);
    IdOctets(o);
  }

  // -- requests and answers (clauses 15.5, 15.7, 15.9 and 20.1) ---------------------------

  lemma ReadRequestLayout(invokeId: Octet, o: ObjectId, property: U32, index: Option<U32>)
    ensures |ObjectIdBytes(o)| == 4
    ensures ReadRequest(invokeId, o, property, index)
            == [0x00, 0x05, invokeId, 12]
               + (Context(0, ObjectIdBytes(o)) + Context(1, UnsignedOctets(property)) + Optional(2, index))
  {
    hide Target, Context, Optional, UnsignedOctets, ObjectIdBytes;
    TargetLayout(o, property, index);
    IdOctets(o);
  }

  lemma WriteRequestLayout(invokeId: Octet, o: ObjectId, property: U32, value: Bytes, priority: Option<U32>,
                           index: Option<U32>)
    ensures |ObjectIdBytes(o)| == 4
    ensures WriteRequest(invokeId, o, property, value, priority, index)
            == [0x00, 0x05, invokeId, 15]
               + ((Context(0, ObjectIdBytes(o)) + Context(1, UnsignedOctets(property)) + Optional(2, index))
                  + ([0x3E] + value + [0x3F]) + Optional(4, priority))
  {
    hide Target, Enclosed, OptionalUnsigned, Context, Optional, UnsignedOctets, ObjectIdBytes;
    TargetLayout(o, property, index);
    EnclosedLayout(3, value);
    OptionalNumber(4, priority);
    IdOctets(o);
  }

  lemma ReadAckLayout(invokeId: Octet, o: ObjectId, property: U32, index: Option<U32>, value: Bytes)
    ensures |ObjectIdBytes(o)| == 4
    ensures ReadAck(invokeId, o, property, index, value)
            == [0x30, invokeId, 12]
               + ((Context(0, ObjectIdBytes(o)) + Context(1, UnsignedOctets(property)) + Optional(2, index))
                  + ([0x3E] + value + [0x3F]))
  {
    hide Target, Enclosed, Context, Optional, UnsignedOctets, ObjectIdBytes;
    TargetLayout(o, property, index);
    EnclosedLayout(3, value);
    IdOctets(o);
  }

  /** SimpleACK, Reject, Abort from a server, and Error (clauses 20.1.4, 20.1.8, 20.1.9 and 20.1.7). */
  lemma ShortAnswersLayout(invokeId: Octet, service: Octet, reason: Octet, errorClass: U32, errorCode: U32)
    ensures SimpleAck(invokeId, service) == [0x20, invokeId, service]
    ensures RejectPdu(invokeId, reason) == [0x60, invokeId, reason]
    ensures AbortPdu(invokeId, reason) == [0x71, invokeId, reason]
    ensures ErrorPdu(invokeId, service, errorClass, errorCode)
            == [0x50, invokeId, service]
               + (Application(9, UnsignedOctets(errorClass)) + Application(9, UnsignedOctets(errorCode)))
    ensures ReadError(invokeId, errorClass, errorCode) == ErrorPdu(invokeId, 12, errorClass, errorCode)
    ensures WriteError(invokeId, errorClass, errorCode) == ErrorPdu(invokeId, 15, errorClass, errorCode)
  {
    hide UnsignedOctets;
  }

  /** One reference of a ReadPropertyMultiple: [0] property and [1] array index. */
  function ReferenceOctets(r: Reference): Bytes { Context(0, UnsignedOctets(r.property)) + Optional(1, r.index) }

  function ReferencesOctets(refs: seq<Reference>): Bytes {
    if refs == [] then [] else ReferenceOctets(refs[0]) + ReferencesOctets(refs[1..])
  }

  lemma {:induction false} ReferencesLayout(refs: seq<Reference>)
    ensures EncodeReferences(refs) == ReferencesOctets(refs)
  {
    hide ContextUnsigned, OptionalUnsigned, Context, Optional, UnsignedOctets;
    if refs != [] {
      ContextNumber(0, refs[0].property);
      OptionalNumber(1, refs[0].index);
      ReferencesLayout(refs[1..]);
    }
  }

  function SpecificationsOctets(specs: seq<Specification>): Bytes {
    if specs == [] then [] else
    IdOctets(specs[0].0);
    Context(0, ObjectIdBytes(specs[0].0)) + ([0x1E] + ReferencesOctets(specs[0].1) + [0x1F])
    + SpecificationsOctets(specs[1..])
  }

  lemma {:induction false} ReadMultipleRequestLayout(invokeId: Octet, specs: seq<Specification>)
    ensures ReadMultipleRequest(invokeId, specs) == [0x00, 0x05, invokeId, 14] + SpecificationsOctets(specs)
  {
    hide EncodeReferences, ReferencesOctets, ContextObjectId, Context, Enclosed, ObjectIdBytes;
    if specs != [] {
      ReadMultipleRequestLayout(invokeId, specs[1..]);
      var rest := EncodeSpecifications(specs[1..]);
      assert ReadMultipleRequest(invokeId, specs[1..])[4..] == rest;
      assert ([0x00, 0x05, invokeId, 14] + SpecificationsOctets(specs[1..]))[4..] == SpecificationsOctets(specs[1..]);
      ContextIdentifier(0, specs[0].0);
      IdOctets(specs[0].0);
      ReferencesLayout(specs[0].1);
      EnclosedLayout(1, EncodeReferences(specs[0].1));
    }
  }

  /** One result: [2] property, then the value in [4] or PROPERTY / UNKNOWN_PROPERTY in [5]. */
  function EntryOctets(e: Entry): Bytes {
    Context(2, UnsignedOctets(e.0))
    + (if e.1.Some? then [0x4E] + e.1.value + [0x4F] else [0x5E, 0x91, 2, 0x91, 32, 0x5F])
  }

  function EntriesOctets(entries: seq<Entry>): Bytes {
    if entries == [] then [] else EntryOctets(entries[0]) + EntriesOctets(entries[1..])
  }

  lemma UnknownPropertyLayout()
    ensures UnknownProperty() == [0x91, 2, 0x91, 32]
  {
  }

  lemma {:induction false} EntriesLayout(entries: seq<Entry>)
    ensures EncodeEntries(entries) == EntriesOctets(entries)
  {
    hide ContextUnsigned, Context, UnsignedOctets, Enclosed, UnknownProperty;
    if entries != [] {
      var e := entries[0];
      ContextNumber(2, e.0);
      UnknownPropertyLayout();
      EnclosedLayout(4, if e.1.Some? then e.1.value else []);
      EnclosedLayout(5, UnknownProperty());
      assert [0x5E] + UnknownProperty() + [0x5F] == [0x5E, 0x91, 2, 0x91, 32, 0x5F];
      EntriesLayout(entries[1..]);
    }
  }

  function ResultsOctets(results: seq<ObjectResult>): Bytes {
    if results == [] then [] else
    IdOctets(results[0].0);
    Context(0, ObjectIdBytes(results[0].0)) + ([0x1E] + EntriesOctets(results[0].1) + [0x1F])
    + ResultsOctets(results[1..])
  }

  lemma {:induction false} ReadMultipleAckLayout(invokeId: Octet, results: seq<ObjectResult>)
    ensures ReadMultipleAck(invokeId, results) == [0x30, invokeId, 14] + ResultsOctets(results)
  {
    hide EncodeEntries, EntriesOctets, ContextObjectId, Context, Enclosed, ObjectIdBytes;
    if results != [] {
      ReadMultipleAckLayout(invokeId, results[1..]);
      assert ReadMultipleAck(invokeId, results[1..])[3..] == EncodeResults(results[1..]);
      assert ([0x30, invokeId, 14] + ResultsOctets(results[1..]))[3..] == ResultsOctets(results[1..]);
      ContextIdentifier(0, results[0].0);
      IdOctets(results[0].0);
      EntriesLayout(results[0].1);
      EnclosedLayout(1, EncodeEntries(results[0].1));
    }
  }

  // -- Who-Is and I-Am (clause 16.10), and the Device object ---------------------------------

  lemma WhoIsLayout(low: U32, high: U32)
    ensures WhoIsRange(low, high)
            == [0x10, 8] + (Context(0, UnsignedOctets(low)) + Context(1, UnsignedOctets(high)))
    ensures WhoIsAnyone() == [0x10, 8]
  {
    hide ContextUnsigned, Context, UnsignedOctets;
    ContextNumber(0, low);
    ContextNumber(1, high);
  }

  /** The instance, at most 1476 octets of APDU, no segmentation (3), and the vendor. */
  lemma IAmLayout(c: Config)
    ensures IAm(c) == [0x10, 0x00, 0xC4] + ObjectIdBytes(ObjectId(8, c.deviceInstance)) + [0x22, 0x05, 0xC4, 0x91, 3]
                      + Application(2, UnsignedOctets(c.vendorIdentifier))
  {
    hide U32Bytes;
    var small := ApplicationUnsigned(1476) + ApplicationEnumerated(3);
    assert small == [0x22, 0x05, 0xC4, 0x91, 3];
    var id := ApplicationObjectId(DeviceId(c));
    assert id == [0xC4] + ObjectIdBytes(ObjectId(8, c.deviceInstance));
    VendorLayout(c.vendorIdentifier);
    assert IAm(c) == [0x10, 0x00] + id + small + ApplicationUnsigned(c.vendorIdentifier);
  }

  lemma VendorLayout(v: U32)
    ensures ApplicationUnsigned(v) == Application(2, UnsignedOctets(v))
  {
    hide UnsignedOctets;
  }

  /** The Device object serves its name in UTF-8 and its identifier, under 77 and 75, and nothing else. */
  lemma DeviceLayout(c: Config, property: nat)
    requires |c.objectName| < 253
    ensures DeviceProperty(c, property)
            == if property == 77 then
                 Some((if |c.objectName| < 4 then [0x71 + |c.objectName|] else [0x75, |c.objectName| + 1])
                      + ([0] + c.objectName))
               else if property == 75 then Some([0xC4] + ObjectIdBytes(ObjectId(8, c.deviceInstance)))
               else None
  {
    hide U32Bytes;
  }

  // -- event notifications (clauses 13.8 and 13.9) ---------------------------------------------

  function TextOctets(text: Option<Bytes>): Bytes
    requires text.Some? ==> |text.value| < 253
  {
    match text
    case None => []
    case Some(t) => (if |t| < 4 then [0x79 + |t|] else [0x7D, |t| + 1]) + ([0] + t)
  }

  /** ack-required, from-state, to-state and the out-of-range values: exceeding value, status flags of which only
      in-alarm can be set, deadband and limit. */
  function AlarmOctets(e: Event): Bytes
    requires ValidEvent(e)
  {
    [0x99, if e.ackRequired then 1 else 0] + Context(10, UnsignedOctets(e.fromState))
    + Context(11, UnsignedOctets(e.toState))
    + ([0xCE, 0x5E, 0x0C] + e.exceedingValue + [0x1A, 4, if e.toState != 0 then 0x80 else 0]
       + [0x2C] + e.deadband + [0x3C] + e.exceededLimit + [0x5F, 0xCF])
  }

  function StateOctets(e: Event): Bytes
    requires ValidEvent(e)
  {
    if e.notifyType == 2 then Context(11, UnsignedOctets(e.toState)) else AlarmOctets(e)
  }

  function StampOctets(stamp: Stamp): Bytes { [0x3E, 0x2E, 0xA4] + stamp.0 + [0xB4] + stamp.1 + [0x2F, 0x3F] }

  lemma FieldLayout(tag: TagNumber, body: Bytes, rest: Pieces)
    requires |body| < 5 && ValidPieces(More(Field(tag, body), rest))
    ensures EncodePieces(More(Field(tag, body), rest)) == Context(tag, body) + EncodePieces(rest)
  {
  }

  lemma StampLayout(stamp: Stamp)
    requires |stamp.0| == 4 && |stamp.1| == 4
    ensures EncodePiece(DateTime(stamp)) == StampOctets(stamp)
  {
    var inner := Primitive(10, false, stamp.0) + Primitive(11, false, stamp.1);
    assert inner == [0xA4] + stamp.0 + [0xB4] + stamp.1;
    EnclosedLayout(2, inner);
    EnclosedLayout(3, Enclosed(2, inner));
  }

  lemma FlagsLayout(e: Event)
    ensures BitBody(InAlarm(e)) == [4, if e.toState != 0 then 0x80 else 0]
  {
    var bits := InAlarm(e);
    var octet := BitsOf(bits, 0);
    assert octet == [e.toState != 0, false, false, false, false, false, false, false];
    FirstBitOnly(octet);
    assert Packed(bits) == [OctetOf(octet)];
  }

  lemma FirstBitOnly(bits: seq<bool>)
    requires |bits| == 8 && forall i | 1 <= i < 8 :: !bits[i]
    ensures OctetOf(bits) == if bits[0] then 0x80 else 0
  {
    NumberOfZeros(8);
    Pow2At8();
    if bits[0] {
      NumberOfSet(Zeros(8), 0);
      assert Zeros(8)[0 := true] == bits;
      assert Pow2(8) == 2 * Pow2(7);
    } else {
      assert Zeros(8) == bits;
    }
  }

  lemma ValuesLayout(e: Event)
    requires ValidEvent(e)
    ensures Enclosed(12, Enclosed(5, EventValues(e)))
            == [0xCE, 0x5E, 0x0C] + e.exceedingValue + [0x1A, 4, if e.toState != 0 then 0x80 else 0]
               + [0x2C] + e.deadband + [0x3C] + e.exceededLimit + [0x5F, 0xCF]
  {
    hide BitBody, InAlarm, Primitive, Enclosed;
    FlagsLayout(e);
    var flags: Bytes := [4, if e.toState != 0 then 0x80 else 0];
    PrimitiveLayout(0, true, e.exceedingValue);
    PrimitiveLayout(1, true, flags);
    PrimitiveLayout(2, true, e.deadband);
    PrimitiveLayout(3, true, e.exceededLimit);
    var values := [0x0C] + e.exceedingValue + ([0x1A] + flags) + ([0x2C] + e.deadband) + ([0x3C] + e.exceededLimit);
    assert EventValues(e) == values;
    WrappedTwice(values);
    assert [0xCE, 0x5E] + values + [0x5F, 0xCF]
        == [0xCE, 0x5E, 0x0C] + e.exceedingValue + [0x1A, 4, if e.toState != 0 then 0x80 else 0]
           + [0x2C] + e.deadband + [0x3C] + e.exceededLimit + [0x5F, 0xCF];
  }

  lemma WrappedTwice(values: Bytes)
    ensures Enclosed(12, Enclosed(5, values)) == [0xCE, 0x5E] + values + [0x5F, 0xCF]
  {
  }

  lemma StateLayout(e: Event)
    requires ValidEvent(e) && ValidPieces(StatePieces(e))
    ensures EncodePieces(StatePieces(e)) == StateOctets(e)
  {
    hide EventValues, UnsignedOctets, Context, Primitive, Enclosed;
    var s := StatePieces(e);
    if e.notifyType == 2 {
      FieldLayout(11, UnsignedOctets(e.toState), End);
      assert Context(11, UnsignedOctets(e.toState)) + EncodePieces(End) == Context(11, UnsignedOctets(e.toState));
    } else {
      ValuesLayout(e);
      var nested := s.rest.rest.rest;
      assert ValidPieces(s.rest.rest) && ValidPieces(nested);
      assert EncodePieces(nested) == EncodePiece(nested.piece) + EncodePieces(End);
      FieldLayout(11, UnsignedOctets(e.toState), nested);
      FieldLayout(10, UnsignedOctets(e.fromState), s.rest.rest);
      FieldLayout(9, [if e.ackRequired then 1 else 0], s.rest);
      AckLayout(e.ackRequired);
      var a, b, c := Context(9, [if e.ackRequired then 1 else 0]), Context(10, UnsignedOctets(e.fromState)),
                     Context(11, UnsignedOctets(e.toState));
      var d := Enclosed(12, Enclosed(5, EventValues(e)));
      assert EncodePieces(nested) == d + [] == d;
      Regroup(a, b, c + d);
      Regroup(a + b, c, d);
      assert EncodePieces(s) == a + b + c + d;
    }
  }

  lemma AckLayout(required: bool)
    ensures Context(9, [if required then 1 else 0]) == [0x99, if required then 1 else 0]
  {
  }

  lemma MessageLayout(e: Event)
    requires ValidEvent(e) && ValidPieces(MessagePieces(e))
    ensures EncodePieces(MessagePieces(e))
            == TextOctets(e.messageText) + (Context(8, UnsignedOctets(e.notifyType)) + StateOctets(e))
  {
    hide StatePieces, UnsignedOctets, Context, StateOctets;
    var rest := More(Field(8, UnsignedOctets(e.notifyType)), StatePieces(e));
    FieldLayout(8, UnsignedOctets(e.notifyType), StatePieces(e));
    StateLayout(e);
    if e.messageText.Some? {
      PrimitiveLayout(7, true, [0] + e.messageText.value);
      assert EncodePiece(Field(7, [0] + e.messageText.value)) == TextOctets(e.messageText);
    }
  }

  /** Every parameter of an event notification, in order, with or without text, and as an ACK_NOTIFICATION. */
  lemma EventLayout(e: Event, invokeId: Option<Octet>)
    requires ValidEvent(e)
    ensures |ObjectIdBytes(ObjectId(8, e.initiatingDevice))| == 4 == |ObjectIdBytes(e.eventObject)|
    ensures EventApdu(e, invokeId)
            == (if invokeId.Some? then [0x00, 0x05, invokeId.value, 2] else [0x10, 3])
               + (Context(0, UnsignedOctets(e.processIdentifier))
                  + (Context(1, ObjectIdBytes(ObjectId(8, e.initiatingDevice)))
                     + (Context(2, ObjectIdBytes(e.eventObject))
                        + (StampOctets(e.stamp)
                           + (Context(4, UnsignedOctets(e.notificationClass))
                              + (Context(5, UnsignedOctets(e.priority))
                                 + ([0x69, 5]
                                    + (TextOctets(e.messageText)
                                       + (Context(8, UnsignedOctets(e.notifyType)) + StateOctets(e))))))))))
  {
    hide MessagePieces, UnsignedOctets, Context, StateOctets, ObjectIdBytes, TextOctets, StampOctets, EncodePiece;
    IdOctets(ObjectId(8, e.initiatingDevice));
    IdOctets(e.eventObject);
    EventPiecesValid(e);
    var p := EventPieces(e);
    var q := p.rest.rest.rest;
    assert ValidPieces(p.rest.rest) && ValidPieces(q);
    assert ValidPieces(q.rest) && ValidPieces(q.rest.rest);
    assert ValidPieces(q.rest.rest.rest) && ValidPieces(MessagePieces(e));
    MessageLayout(e);
    TypeLayout(e);
    FieldLayout(6, UnsignedOctets(EVENT_TYPE_OUT_OF_RANGE), MessagePieces(e));
    FieldLayout(5, UnsignedOctets(e.priority), q.rest.rest.rest);
    FieldLayout(4, UnsignedOctets(e.notificationClass), q.rest.rest);
    StampLayout(e.stamp);
    assert EncodePieces(q) == EncodePiece(q.piece) + EncodePieces(q.rest);
    FieldLayout(2, ObjectIdBytes(e.eventObject), q);
    FieldLayout(1, ObjectIdBytes(ObjectId(8, e.initiatingDevice)), p.rest.rest);
    FieldLayout(0, UnsignedOctets(e.processIdentifier), p.rest);
  }

  lemma TypeLayout(e: Event)
    ensures Context(6, UnsignedOctets(EVENT_TYPE_OUT_OF_RANGE)) == [0x69, 5]
  {
  }
}
