/** What an encoded WriteProperty does to a server, value by value: a NULL relinquishes a slot (clause 19.2), any other
    value takes it, and a NULL written where nothing can be relinquished changes nothing (clause 19.2.1). */
module Relinquish {
  import opened Octets
  import opened Tags
  import opened Constructed
  import opened Network
  import opened Requests
  import opened Multiple
  import opened Server
  import opened Arbiter
  import opened Runs
  import Direct
  import EndToEnd

  /** The frame of an encoded WriteProperty. */
  function WriteOf(invokeId: Octet, path: Path, o: ObjectId, property: U32, value: Bytes, priority: Option<U32>,
                   index: Option<U32>): Fields
    requires PathOk(path)
  {
    RequestFrame(WriteRequest(invokeId, o, property, value, priority, index), path)
  }

  /** The slot a write commands: 16 unless a priority other than 0 is given. */
  function SlotOf(priority: Option<U32>): nat {
    match priority
    case Some(p) => if p > 0 then p else 16
    case None => 16
  }

  /** The server answers with a SimpleACK of WriteProperty. */
  predicate Acknowledges(s: State, f: Fields, invokeId: Octet)
    requires WellFormed(s)
  {
    AnswerFrame(s, f).1 == Returned(Some([0x20, invokeId, 15]))
  }

  lemma WriteSlot(s: State, invokeId: Octet, path: Path, o: ObjectId, value: Bytes, priority: Option<U32>,
                  index: Option<U32>)
    requires WellFormed(s) && PathOk(path) && IsCommandable(s, o) && Balanced(value) && SlotOf(priority) <= 16
    requires Acknowledges(s, WriteOf(invokeId, path, o, 85, value, priority, index), invokeId)
    ensures var t := AnswerFrame(s, WriteOf(invokeId, path, o, 85, value, priority, index)).0;
            && SlotAt(t, o, SlotOf(priority)) == (if Direct.Relinquishes(value) then None else Some(value))
            && forall x, p | IsCommandable(s, x) && 1 <= p <= 16 && !(x == o && p == SlotOf(priority)) ::
                 SlotAt(t, x, p) == SlotAt(s, x, p)
  {
    hide AnswerFrame, ParseWrite, Balanced, RequestFrame, EndToEnd.EncodeCall, Direct.Relinquishes, WriteRequest,
         WellFormed, SlotAt, Latest;
    var f := WriteOf(invokeId, path, o, 85, value, priority, index);
    EndToEnd.WriteFrame(invokeId, path, Direct.WriteCall(o, 85, value, priority, index));
    EndToEnd.SameRequest(invokeId, Direct.WriteCall(o, 85, value, priority, index));
    var a := Accepted(o, SlotOf(priority), if Direct.Relinquishes(value) then None else Some(value));
    assert AcceptedBy(s, f) == [a];
    forall x, p | IsCommandable(s, x) && 1 <= p <= 16
      ensures SlotAt(AnswerFrame(s, f).0, x, p) == if x == o && p == SlotOf(priority) then a.value else SlotAt(s, x, p)
    {
      SlotStep(s, f, x, p);
      LatestOne(a, x, p, SlotAt(s, x, p));
    }
  }


  /** Section 19.2: after an acknowledged NULL at priority p, slot p is empty, and no other slot has changed. */
  lemma NullRelinquishes(s: State, invokeId: Octet, path: Path, o: ObjectId, priority: Option<U32>, index: Option<U32>)
    requires WellFormed(s) && PathOk(path) && IsCommandable(s, o) && SlotOf(priority) <= 16
    requires Acknowledges(s, WriteOf(invokeId, path, o, 85, [0x00], priority, index), invokeId)
    ensures var t := AnswerFrame(s, WriteOf(invokeId, path, o, 85, [0x00], priority, index)).0;
            && SlotAt(t, o, SlotOf(priority)) == None
            && forall x, p | IsCommandable(s, x) && 1 <= p <= 16 && !(x == o && p == SlotOf(priority)) ::
                 SlotAt(t, x, p) == SlotAt(s, x, p)
  {
    hide AnswerFrame, WriteOf, WellFormed, SlotAt;
    EndToEnd.NullBalanced();
    WriteSlot(s, invokeId, path, o, [0x00], priority, index);
  }

  /** After an acknowledged write at priority p of any primitive that is not a NULL, of a BOOLEAN, or of a constructed
      value, slot p holds it, and no other slot has changed. */
  lemma ValueTakesSlot(s: State, invokeId: Octet, path: Path, o: ObjectId, value: Bytes, priority: Option<U32>,
                       index: Option<U32>)
    requires WellFormed(s) && PathOk(path) && IsCommandable(s, o) && SlotOf(priority) <= 16
    requires Acknowledges(s, WriteOf(invokeId, path, o, 85, value, priority, index), invokeId)
    requires || (exists tag: TagNumber, isContext, body: seq<Octet> | |body| < 0x1_0000 ::
                   (isContext || tag > 1) && value == Primitive(tag, isContext, body))
             || (exists b :: value == ApplicationBoolean(b))
             || (exists tag: TagNumber, inner :: Balanced(inner) && value == Enclosed(tag, inner))
    ensures var t := AnswerFrame(s, WriteOf(invokeId, path, o, 85, value, priority, index)).0;
            && SlotAt(t, o, SlotOf(priority)) == Some(value)
            && forall x, p | IsCommandable(s, x) && 1 <= p <= 16 && !(x == o && p == SlotOf(priority)) ::
                 SlotAt(t, x, p) == SlotAt(s, x, p)
  {
    hide AnswerFrame, WriteOf, WellFormed, SlotAt, Primitive, Enclosed, Balanced, ApplicationBoolean,
         Direct.Relinquishes;
    if tag: TagNumber, isContext, body: seq<Octet> :| |body| < 0x1_0000 && (isContext || tag > 1)
                                                      && value == Primitive(tag, isContext, body) {
      BalancedPrimitive(tag, isContext, body);
      PrimitiveIsNoNull(tag, isContext, body);
    } else if b :| value == ApplicationBoolean(b) {
      BalancedBoolean(b);
      BooleanIsNoNull(b);
    } else {
      var tag: TagNumber, inner :| Balanced(inner) && value == Enclosed(tag, inner);
      BalancedWrap(tag, inner);
      EnclosedIsNoNull(tag, inner);
    }
    WriteSlot(s, invokeId, path, o, value, priority, index);
  }

  lemma PrimitiveIsNoNull(tag: TagNumber, isContext: bool, body: Bytes)
    requires |body| < 0x1_0000 && (isContext || tag > 1)
    ensures !Direct.Relinquishes(Primitive(tag, isContext, body))
  {
    assert Primitive(tag, isContext, body)[0] == Header(tag, isContext, |body|)[0];
  }

  lemma BooleanIsNoNull(b: bool)
    ensures !Direct.Relinquishes(ApplicationBoolean(b))
  {
  }

  lemma EnclosedIsNoNull(tag: TagNumber, inner: Bytes)
    ensures !Direct.Relinquishes(Enclosed(tag, inner)) && Enclosed(tag, inner) == Opening(tag) + inner + Closing(tag)
  {
  }

  /** Clause 19.2.1: where the server has commandable objects, a NULL written to any other property it serves is
      acknowledged and changes nothing. */
  lemma NullElsewhere(s: State, invokeId: Octet, path: Path, o: ObjectId, property: U32, priority: Option<U32>,
                      index: Option<U32>)
    requires WellFormed(s) && PathOk(path) && s.config.commandable.Some?
    requires !(IsCommandable(s, o) && property == 85) && Served(s.objects, o, property).Some?
    requires s.script.mode == Online && o !in s.script.failures
    ensures var f := WriteOf(invokeId, path, o, property, [0x00], priority, index);
            Acknowledges(s, f, invokeId) && SameButLogs(s, AnswerFrame(s, f).0)
  {
    hide AnswerFrame, ParseWrite, Balanced, RequestFrame, EndToEnd.EncodeCall, WriteRequest, WellFormed,
         Direct.Relinquishes, IsNull;
    var f := WriteOf(invokeId, path, o, property, [0x00], priority, index);
    var c := Direct.WriteCall(o, property, [0x00], priority, index);
    EndToEnd.NullBalanced();
    EndToEnd.WriteFrame(invokeId, path, c);
    assert f == RequestFrame(EndToEnd.EncodeCall(invokeId, c), path) by {
      EndToEnd.SameRequest(invokeId, c);
    }
    EndToEnd.FailureOfCall(s, f, o);
    FrameEffect(s, f);
    Direct.NullOctets([0x00]);
    NullRelinquishing();
  }

  lemma NullRelinquishing()
    ensures Direct.Relinquishes([0x00])
  {
  }
}
