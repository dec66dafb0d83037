/** Event notifications (clauses 13.8 and 13.9): the encoder of alarm.py, and the decoder that walks over
    the parameters and skips what it does not keep. */
module Notifications {
  import opened Octets
  import opened Tags
  import opened Constructed
  import opened Network
  import opened Requests
  import opened BitStrings

  const NOTIFY_TYPE_ACK_NOTIFICATION: nat := 2
  const EVENT_TYPE_OUT_OF_RANGE: U32 := 5
  const SERVICE_CONFIRMED_EVENT_NOTIFICATION: Octet := 2
  const SERVICE_UNCONFIRMED_EVENT_NOTIFICATION: Octet := 3

  /** Date and time, four octets each. */
  type Stamp = (Bytes, Bytes)

  // -- decoding ------------------------------------------------------------------

  /** One BACnetTimeStamp: the dateTime form's octets, or None, and the position after it. */
  function ReadTimeStamp(octets: Bytes, position: nat): (r: Outcome<(Option<Stamp>, nat)>)
    ensures r.Returned? ==> position < r.value.1
  {
    var t :- ReadTag(octets, position);
    if t.kind == Open && t.number == 2 then
      var date :- ReadTag(octets, t.next);
      var time :- ReadTag(octets, date.next);
      var end :- ReadTag(octets, time.next);
      Returned((Some((date.body, time.body)), end.next))
    else if t.kind == Open then
      var end :- EndOf(octets, t.next);
      Returned((None, end))
    else Returned((None, t.next))
  }

  datatype Notification = Notification(
    processIdentifier: Option<nat>, initiatingDevice: Option<ObjectId>, eventObject: Option<ObjectId>,
    timeStamp: Option<Stamp>, notificationClass: Option<nat>, priority: Option<nat>, eventType: Option<nat>,
    notifyType: Option<nat>, ackRequired: Option<bool>, fromState: Option<nat>, toState: Option<nat>)

  const UNSET := Notification(None, None, None, None, None, None, None, None, None, None, None)

  /** A context-tagged primitive at the top level. */
  function SetField(n: Notification, number: nat, body: Bytes): Outcome<Notification> {
    var value := Some(FromBytes(body));
    match number
    case 0 => Returned(n.(processIdentifier := value))
    case 1 => var o :- UnpackObjectId(body); Returned(n.(initiatingDevice := Some(o)))
    case 2 => var o :- UnpackObjectId(body); Returned(n.(eventObject := Some(o)))
    case 4 => Returned(n.(notificationClass := value))
    case 5 => Returned(n.(priority := value))
    case 6 => Returned(n.(eventType := value))
    case 8 => Returned(n.(notifyType := value))
    case 9 => Returned(n.(ackRequired := Some(FromBytes(body) != 0)))
    case 10 => Returned(n.(fromState := value))
    case 11 => Returned(n.(toState := value))
    case _ => Returned(n)
  }

  function ParseNotification(octets: Bytes, position: nat, n: Notification): Outcome<Notification>
    decreases Left(octets, position)
  {
    if position >= |octets| then Returned(n) else
    var t :- ReadTag(octets, position);
    if t.kind == Open && t.number == 3 then
      var (stamp, inner) :- ReadTimeStamp(octets, t.next);
      var close :- ReadTag(octets, inner);
      ParseNotification(octets, close.next, n.(timeStamp := stamp))
    else if t.kind == Open then
      var after :- EndOf(octets, t.next);
      ParseNotification(octets, after, n)
    else if t.kind == Value && t.isContext then
      var m :- SetField(n, t.number, t.body);
      ParseNotification(octets, t.next, m)
    else ParseNotification(octets, t.next, n)
  }

  /** `EventNotification`: an object whose fields its constructor sets one by one. */
  class EventNotification {
    var confirmed: bool
    var invokeId: Option<Octet>
    var fields: Notification

    constructor ()
      ensures fields == UNSET && !confirmed && invokeId == None
    {
      confirmed, invokeId, fields := false, None, UNSET;
    }

    /** `EventNotification.__init__` */
    method Decode(frame: Fields) returns (raised: Option<PyError>)
      requires fields == UNSET
      modifies this
      ensures match DecodeNotification(frame)
              case Returned((c, id, n)) => raised == None && confirmed == c && invokeId == id && fields == n
              case Raised(e) => raised == Some(e)
    {
      hide ReadTag, EndOf, SetField, ReadTimeStamp;
      confirmed := frame.IsConfirmedRequest();
      var id := frame.InvokeId();
      if confirmed && id.Raised? {
        return Some(id.error);
      }
      invokeId := if confirmed then id.value else None;
      var octets := Slice(frame.payload, if confirmed then 4 else 2, |frame.payload|);
      var position: nat := 0;
      while position < |octets|
        invariant confirmed == frame.IsConfirmedRequest()
        invariant invokeId == if confirmed then id.value else None
        invariant ParseNotification(octets, 0, UNSET) == ParseNotification(octets, position, fields)
        decreases Left(octets, position)
      {
        var t := ReadTag(octets, position);
        if t.Raised? {
          return Some(t.error);
        }
        position := t.value.next;
        if t.value.kind == Open {
          if t.value.number == 3 {
            var stamp := ReadTimeStamp(octets, position);
            if stamp.Raised? {
              return Some(stamp.error);
            }
            var close := ReadTag(octets, stamp.value.1);
            if close.Raised? {
              return Some(close.error);
            }
            fields := fields.(timeStamp := stamp.value.0);
            position := close.value.next;
          } else {
            var after := SkipConstructed(octets, position);
            if after.Raised? {
              return Some(after.error);
            }
            position := after.value;
          }
        } else if t.value.kind == Value && t.value.isContext {
          var m := SetField(fields, t.value.number, t.value.body);
          if m.Raised? {
            return Some(m.error);
          }
          fields := m.value;
        }
      }
      return None;
    }
  }

  function DecodeNotification(frame: Fields): Outcome<(bool, Option<Octet>, Notification)> {
    var confirmed := frame.IsConfirmedRequest();
    var id :- if confirmed then frame.InvokeId() else Returned(None);
    var n :- ParseNotification(Slice(frame.payload, if confirmed then 4 else 2, |frame.payload|), 0, UNSET);
    Returned((confirmed, id, n))
  }

  /** `_skip_constructed` */
  method SkipConstructed(octets: Bytes, start: nat) returns (r: Outcome<nat>)
    ensures r == EndOf(octets, start)
  {
    hide ReadTag;
    var position := start;
    var depth: nat := 1;
    while depth > 0
      invariant start <= position
      invariant depth > 0 ==> Scan(octets, start, 1) == Scan(octets, position, depth)
      invariant depth == 0 ==> EndOf(octets, start) == Returned(position)
      decreases depth > 0, Left(octets, position)
    {
      var t := ReadTag(octets, position);
      if t.Raised? {
        return Raised(t.error);
      }
      position := t.value.next;
      depth := match t.value.kind case Open => depth + 1 case Close => depth - 1 case Value => depth;
    }
    return Returned(position);
  }

  // -- encoding --------------------------------------------------------------------

  /** A piece of the parameters: a context-tagged primitive, a dateTime stamp in tag [3], or a constructed
      value that the decoder skips. */
  datatype Piece =
    | Field(tag: TagNumber, body: Bytes)
    | DateTime(stamp: Stamp)
    | Nested(tag: TagNumber, inner: Bytes)

  datatype Pieces = End | More(piece: Piece, rest: Pieces)

  predicate ValidPiece(p: Piece) {
    match p
    case Field(tag, body) => |body| < 0x1_0000 && (tag == 1 || tag == 2 ==> |body| == 4)
    case DateTime(stamp) => |stamp.0| == 4 && |stamp.1| == 4
    case Nested(tag, inner) => tag != 3 && Balanced(inner)
  }

  predicate ValidPieces(ps: Pieces) { ps.More? ==> ValidPiece(ps.piece) && ValidPieces(ps.rest) }

  /** `context_date_time` is the DateTime case. */
  function EncodePiece(p: Piece): Bytes
    requires ValidPiece(p)
  {
    match p
    case Field(tag, body) => Primitive(tag, true, body)
    case DateTime(stamp) =>
      Enclosed(3, Enclosed(2, Primitive(10, false, stamp.0) + Primitive(11, false, stamp.1)))
    case Nested(tag, inner) => Enclosed(tag, inner)
  }

  function EncodePieces(ps: Pieces): Bytes
    requires ValidPieces(ps)
  {
    match ps
    case End => []
    case More(p, rest) => EncodePiece(p) + EncodePieces(rest)
  }

  /** What the decoder makes of a piece. */
  function Keep(n: Notification, p: Piece): Outcome<Notification> {
    match p
    case Field(tag, body) => SetField(n, tag, body)
    case DateTime(stamp) => Returned(n.(timeStamp := Some(stamp)))
    case Nested(_, _) => Returned(n)
  }

  function KeepAll(n: Notification, ps: Pieces): Outcome<Notification>
    decreases ps
  {
    match ps
    case End => Returned(n)
    case More(p, rest) =>
      var m :- Keep(n, p);
      KeepAll(m, rest)
  }

  lemma ReadStamp(stamp: Stamp, a: Bytes, at: nat)
    requires |stamp.0| == 4 && |stamp.1| == 4
    requires Occurs(Enclosed(2, Primitive(10, false, stamp.0) + Primitive(11, false, stamp.1)), a, at)
    ensures ReadTimeStamp(a, at)
            == Returned((Some(stamp),
                         at + |Enclosed(2, Primitive(10, false, stamp.0) + Primitive(11, false, stamp.1))|))
  {
    hide ReadTag, Occurs, Primitive;
    var d, t := Primitive(10, false, stamp.0), Primitive(11, false, stamp.1);
    ReadEnclosed(2, d + t, a, at);
    OccursSplit(d, t, a, at + 1);
    ReadPrimitiveAt(10, false, stamp.0, a, at + 1);
    ReadPrimitiveAt(11, false, stamp.1, a, at + 1 + |d|);
    EnclosedLength(2, d + t);
  }

  lemma ParsePiece(p: Piece, a: Bytes, at: nat, n: Notification)
    requires ValidPiece(p) && Occurs(EncodePiece(p), a, at)
    ensures ParseNotification(a, at, n)
            == match Keep(n, p)
               case Raised(e) => Raised(e)
               case Returned(m) => ParseNotification(a, at + |EncodePiece(p)|, m)
  {
    hide ReadTag, Occurs, Primitive, Enclosed, Balanced, ReadTimeStamp, SetField, EndOf;
    match p
    case Field(tag, body) =>
      ReadPrimitiveAt(tag, true, body, a, at);
      assert at < |a|;
    case DateTime(stamp) =>
      var inner := Enclosed(2, Primitive(10, false, stamp.0) + Primitive(11, false, stamp.1));
      ReadEnclosed(3, inner, a, at);
      ReadStamp(stamp, a, at + 1);
      EnclosedLength(3, inner);
    case Nested(tag, inner) =>
      ReadEnclosed(tag, inner, a, at);
      EnclosedLength(tag, inner);
      SkipBalanced(inner, a, at + 1);
  }

  /** A time stamp in any other form has no date and time: a primitive, or a constructed choice other than [2], which is
      passed over whole. */
  lemma OtherStamps(tag: TagNumber, body: Bytes, a: Bytes, at: nat)
    ensures |body| < 0x1_0000 && Occurs(Primitive(tag, true, body), a, at) ==>
              ReadTimeStamp(a, at) == Returned((None, at + |Primitive(tag, true, body)|))
    ensures tag != 2 && Balanced(body) && Occurs(Enclosed(tag, body), a, at) ==>
              ReadTimeStamp(a, at) == Returned((None, at + |body| + 2))
  {
    hide ReadTag, Occurs, Primitive, Enclosed, Balanced, EndOf;
    if |body| < 0x1_0000 && Occurs(Primitive(tag, true, body), a, at) {
      ReadPrimitiveAt(tag, true, body, a, at);
    }
    if tag != 2 && Balanced(body) && Occurs(Enclosed(tag, body), a, at) {
      ReadEnclosed(tag, body, a, at);
      SkipBalanced(body, a, at + 1);
    }
  }

  /** Among the parameters, application-tagged primitives and stray closing tags are passed over. */
  lemma OthersPassedOver(tag: TagNumber, body: Bytes, a: Bytes, at: nat, n: Notification)
    ensures |body| < 0x1_0000 && tag != 1 && Occurs(Primitive(tag, false, body), a, at) ==>
              ParseNotification(a, at, n) == ParseNotification(a, at + |Primitive(tag, false, body)|, n)
    ensures Occurs(Closing(tag), a, at) ==> ParseNotification(a, at, n) == ParseNotification(a, at + 1, n)
  {
    hide ReadTag, Primitive, ReadTimeStamp, SetField, EndOf;
    if |body| < 0x1_0000 && tag != 1 && Occurs(Primitive(tag, false, body), a, at) {
      ReadPrimitiveAt(tag, false, body, a, at);
    }
    if Occurs(Closing(tag), a, at) {
      OccursAt(Closing(tag), a, at, 0);
      ReadClosing(tag, a, at);
    }
  }

  lemma SkipBalanced(v: Bytes, a: Bytes, at: nat)
    requires Occurs(v, a, at) && Closes(a, at + |v|) && Balanced(v)
    ensures EndOf(a, at) == Returned(ReadTag(a, at + |v|).value.next)
  {
    hide ReadTag, Walk;
    ScanWalk(v, a, at, 0, 0);
  }

  /** The decoder takes the pieces one by one, whatever they are. */
  lemma {:induction false} ParsePieces(ps: Pieces, a: Bytes, at: nat, n: Notification)
    requires ValidPieces(ps) && Occurs(EncodePieces(ps), a, at) && |a| == at + |EncodePieces(ps)|
    ensures ParseNotification(a, at, n) == KeepAll(n, ps)
    decreases ps
  {
    hide ReadTag, Occurs, EncodePiece, Keep, ValidPiece;
    match ps
    case End =>
    case More(p, rest) =>
      OccursSplit(EncodePiece(p), EncodePieces(rest), a, at);
      ParsePiece(p, a, at, n);
      var m := Keep(n, p);
      if m.Returned? {
        ParsePieces(rest, a, at + |EncodePiece(p)|, m.value);
      }
  }

  /** The arguments of `event_notification`. REALs are four octets each; text is character set and octets. */
  datatype Event = Event(
    initiatingDevice: Instance, eventObject: ObjectId, toState: U32, fromState: U32, processIdentifier: U32,
    notificationClass: U32, priority: U32, notifyType: U32, ackRequired: bool, messageText: Option<Bytes>,
    stamp: Stamp, exceedingValue: Bytes, deadband: Bytes, exceededLimit: Bytes)

  predicate ValidEvent(e: Event) {
    && |e.stamp.0| == 4 && |e.stamp.1| == 4 && (e.messageText.Some? ==> |e.messageText.value| < 253)
    && |e.exceedingValue| == 4 && |e.deadband| == 4 && |e.exceededLimit| == 4
  }

  function InAlarm(e: Event): seq<bool> { [e.toState != 0, false, false, false] }

  /** The out-of-range event values, inside [5]. */
  function EventValues(e: Event): Bytes
    requires ValidEvent(e)
  {
    Primitive(0, true, e.exceedingValue) + Primitive(1, true, BitBody(InAlarm(e)))
    + Primitive(2, true, e.deadband) + Primitive(3, true, e.exceededLimit)
  }

  function StatePieces(e: Event): Pieces
    requires ValidEvent(e)
  {
    if e.notifyType == NOTIFY_TYPE_ACK_NOTIFICATION then More(Field(11, UnsignedOctets(e.toState)), End)
    else
      More(Field(9, [if e.ackRequired then 1 else 0]),
      More(Field(10, UnsignedOctets(e.fromState)),
      More(Field(11, UnsignedOctets(e.toState)),
      More(Nested(12, Enclosed(5, EventValues(e))), End))))
  }

  function MessagePieces(e: Event): Pieces
    requires ValidEvent(e)
  {
    var rest := More(Field(8, UnsignedOctets(e.notifyType)), StatePieces(e));
    if e.messageText.Some? then More(Field(7, [0] + e.messageText.value), rest) else rest
  }

  function EventPieces(e: Event): Pieces
    requires ValidEvent(e)
  {
    More(Field(0, UnsignedOctets(e.processIdentifier)),
    More(Field(1, ObjectIdBytes(ObjectId(OBJECT_TYPE_DEVICE, e.initiatingDevice))),
    More(Field(2, ObjectIdBytes(e.eventObject)),
    More(DateTime(e.stamp),
    More(Field(4, UnsignedOctets(e.notificationClass)),
    More(Field(5, UnsignedOctets(e.priority)),
    More(Field(6, UnsignedOctets(EVENT_TYPE_OUT_OF_RANGE)), MessagePieces(e))))))))
  }

  lemma EventValuesBalanced(e: Event)
    requires ValidEvent(e)
    ensures Balanced(Enclosed(5, EventValues(e)))
  {
    hide Balanced, Primitive, BitBody;
    ShortBitBody(InAlarm(e));
    var a, b := Primitive(0, true, e.exceedingValue), Primitive(1, true, BitBody(InAlarm(e)));
    var c, d := Primitive(2, true, e.deadband), Primitive(3, true, e.exceededLimit);
    BalancedPrimitive(0, true, e.exceedingValue);
    BalancedPrimitive(1, true, BitBody(InAlarm(e)));
    BalancedPrimitive(2, true, e.deadband);
    BalancedPrimitive(3, true, e.exceededLimit);
    BalancedConcat(a, b);
    BalancedConcat(a + b, c);
    BalancedConcat(a + b + c, d);
    BalancedWrap(5, EventValues(e));
  }

  lemma ShortBitBody(bits: seq<bool>)
    requires 1 <= |bits| <= 8
    ensures |BitBody(bits)| == 2
  {
  }

  lemma EventPiecesValid(e: Event)
    requires ValidEvent(e)
    ensures ValidPieces(EventPieces(e))
  {
    hide Balanced, EventValues, ObjectIdBytes, UnsignedOctets, Enclosed;
    assert |ObjectIdBytes(ObjectId(OBJECT_TYPE_DEVICE, e.initiatingDevice))| == 4 by {
      IdLength(ObjectId(OBJECT_TYPE_DEVICE, e.initiatingDevice));
    }
    IdLength(e.eventObject);
    EventValuesBalanced(e);
    var s := StatePieces(e);
    assert ValidPieces(s) by {
      if e.notifyType != NOTIFY_TYPE_ACK_NOTIFICATION {
        assert ValidPieces(s.rest.rest.rest);
        assert ValidPieces(s.rest);
      }
    }
    assert ValidPieces(MessagePieces(e));
    var p := EventPieces(e);
    assert ValidPieces(p.rest.rest.rest.rest.rest.rest);
    assert ValidPieces(p.rest.rest.rest.rest);
    assert ValidPieces(p.rest.rest);
  }

  lemma IdLength(o: ObjectId)
    ensures |ObjectIdBytes(o)| == 4
  {
  }

  /** What the decoder should recover: an ACK_NOTIFICATION has neither ack-required nor from-state. */
  function ExpectedNotification(e: Event): Notification {
    var ack := e.notifyType == NOTIFY_TYPE_ACK_NOTIFICATION;
    Notification(Some(e.processIdentifier), Some(ObjectId(OBJECT_TYPE_DEVICE, e.initiatingDevice)), Some(e.eventObject),
                 Some(e.stamp), Some(e.notificationClass), Some(e.priority), Some(EVENT_TYPE_OUT_OF_RANGE),
                 Some(e.notifyType), if ack then None else Some(e.ackRequired),
                 if ack then None else Some(e.fromState), Some(e.toState))
  }

  lemma KeepStates(e: Event, n: Notification)
    requires ValidEvent(e)
    ensures var ack := e.notifyType == NOTIFY_TYPE_ACK_NOTIFICATION;
            KeepAll(n, StatePieces(e))
            == Returned(n.(ackRequired := if ack then n.ackRequired else Some(e.ackRequired),
                           fromState := if ack then n.fromState else Some(e.fromState), toState := Some(e.toState)))
  {
    hide EventValues, UnsignedOctets, FromBytes, Enclosed, UnpackObjectId;
    UnsignedRoundTrip(e.toState);
    UnsignedRoundTrip(e.fromState);
    FromBytes1(if e.ackRequired then 1 else 0);
    var s := StatePieces(e);
    if e.notifyType != NOTIFY_TYPE_ACK_NOTIFICATION {
      var n1 := Keep(n, s.piece).value;
      var n2 := Keep(n1, s.rest.piece).value;
      assert KeepAll(n, s) == KeepAll(n1, s.rest) == KeepAll(n2, s.rest.rest);
      var n3 := Keep(n2, s.rest.rest.piece).value;
      assert KeepAll(n3, s.rest.rest.rest) == KeepAll(n3, End) == Returned(n3);
    }
  }

  lemma KeepMessage(e: Event, n: Notification)
    requires ValidEvent(e)
    ensures KeepAll(n, MessagePieces(e)) == KeepAll(n.(notifyType := Some(e.notifyType)), StatePieces(e))
  {
    hide StatePieces, UnsignedOctets, FromBytes, UnpackObjectId;
    UnsignedRoundTrip(e.notifyType);
    if e.messageText.Some? {
      assert KeepAll(n, MessagePieces(e)) == KeepAll(n, MessagePieces(e).rest);
    }
  }

  lemma KeepEvent(e: Event)
    requires ValidEvent(e)
    ensures KeepAll(UNSET, EventPieces(e)) == Returned(ExpectedNotification(e))
  {
    hide MessagePieces, StatePieces, UnsignedOctets, FromBytes, UnpackObjectId, ObjectIdBytes;
    UnsignedRoundTrip(e.processIdentifier);
    ObjectIdRoundTrip(ObjectId(OBJECT_TYPE_DEVICE, e.initiatingDevice));
    ObjectIdRoundTrip(e.eventObject);
    UnsignedRoundTrip(e.notificationClass);
    UnsignedRoundTrip(e.priority);
    UnsignedRoundTrip(EVENT_TYPE_OUT_OF_RANGE);
    var p := EventPieces(e);
    var n1 := Keep(UNSET, p.piece).value;
    var n2 := Keep(n1, p.rest.piece).value;
    assert KeepAll(UNSET, p) == KeepAll(n1, p.rest) == KeepAll(n2, p.rest.rest);
    var q := p.rest.rest;
    var n3 := Keep(n2, q.piece).value;
    var n4 := Keep(n3, q.rest.piece).value;
    assert KeepAll(n2, q) == KeepAll(n3, q.rest) == KeepAll(n4, q.rest.rest);
    var r := q.rest.rest;
    var n5 := Keep(n4, r.piece).value;
    var n6 := Keep(n5, r.rest.piece).value;
    var n7 := Keep(n6, r.rest.rest.piece).value;
    assert KeepAll(n4, r) == KeepAll(n5, r.rest) == KeepAll(n6, r.rest.rest);
    assert KeepAll(n6, r.rest.rest) == KeepAll(n7, MessagePieces(e));
    KeepMessage(e, n7);
    KeepStates(e, n7.(notifyType := Some(e.notifyType)));
  }

  function EventApdu(e: Event, invokeId: Option<Octet>): Bytes
    requires ValidEvent(e)
  {
    EventPiecesValid(e);
    var parameters := EncodePieces(EventPieces(e));
    if invokeId.Some? then ConfirmedRequest(invokeId.value, SERVICE_CONFIRMED_EVENT_NOTIFICATION, parameters)
    else [0x10, SERVICE_UNCONFIRMED_EVENT_NOTIFICATION] + parameters
  }

  /** Clauses 13.8 and 13.9: the decoder recovers every field the encoder was given, confirmed or not, with
      or without message text, over any path; the nested event values are skipped exactly. */
  lemma NotificationRoundTrip(e: Event, invokeId: Option<Octet>, path: Path)
    requires ValidEvent(e) && PathOk(path)
    ensures DecodeNotification(RequestFrame(EventApdu(e, invokeId), path))
            == Returned((invokeId.Some?, invokeId, ExpectedNotification(e)))
  {
    hide EncodePieces, EventPieces, ParseNotification, KeepAll, ExpectedNotification, Npdu, ValidEvent, Occurs,
         ValidPieces;
    EventPiecesValid(e);
    var parameters := EncodePieces(EventPieces(e));
    var apdu := EventApdu(e, invokeId);
    var f := RequestFrame(apdu, path);
    assert f.payload == apdu;
    var from := if invokeId.Some? then 4 else 2;
    assert |apdu| == from + |parameters| && apdu[from..] == parameters;
    assert Slice(apdu, from, |apdu|) == parameters;
    OccursIn([], parameters, []);
    assert [] + parameters + [] == parameters;
    ParsePieces(EventPieces(e), parameters, 0, UNSET);
    KeepEvent(e);
  }
}
