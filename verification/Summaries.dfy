/** GetEventInformation-ACK (clause 13.12): the decoder of alarm.py against a reference encoding of the
    production. Tags [0] and [1] mean one thing inside the list of summaries and another outside it. */
module Summaries {
  import opened Octets
  import opened Tags
  import opened Constructed
  import opened Requests
  import opened BitStrings
  import opened Notifications

  const SERVICE_GET_EVENT_INFORMATION: Octet := 29

  // -- decoding ------------------------------------------------------------------

  /** A summary as far as it has been read. */
  datatype Summary = Summary(
    target: ObjectId, eventState: Option<nat>, ackedTransitions: Option<seq<bool>>,
    timeStamps: Option<seq<Option<Stamp>>>, notifyType: Option<nat>, eventEnable: Option<seq<bool>>,
    priorities: Option<seq<nat>>)

  /** The last summary is the current one; storing into it before there is one is a TypeError. */
  datatype Progress = Progress(summaries: seq<Summary>, moreEvents: Option<bool>, inList: bool)

  function Begun(o: ObjectId): Summary { Summary(o, None, None, None, None, None, None) }

  function Last(p: Progress): Summary
    requires p.summaries != []
  {
    p.summaries[|p.summaries| - 1]
  }

  function Replace(p: Progress, s: Summary): Progress
    requires p.summaries != []
  {
    p.(summaries := p.summaries[|p.summaries| - 1 := s])
  }

  /** A context-tagged primitive inside the list. */
  function TakeValue(p: Progress, number: nat, body: Bytes): Outcome<Progress> {
    if number == 0 then
      var o :- UnpackObjectId(body);
      Returned(p.(summaries := p.summaries + [Begun(o)]))
    else if number == 2 || number == 5 then
      var bits :- DecodeBits(body);
      if p.summaries == [] then Raised(TypeError)
      else if number == 2 then Returned(Replace(p, Last(p).(ackedTransitions := Some(bits))))
      else Returned(Replace(p, Last(p).(eventEnable := Some(bits))))
    else if number != 1 && number != 4 then Returned(p)
    else if p.summaries == [] then Raised(TypeError)
    else if number == 1 then Returned(Replace(p, Last(p).(eventState := Some(FromBytes(body)))))
    else Returned(Replace(p, Last(p).(notifyType := Some(FromBytes(body)))))
  }

  function ReadStamps(octets: Bytes, position: nat, count: nat): (r: Outcome<(seq<Option<Stamp>>, nat)>)
    ensures r.Returned? ==> position <= r.value.1
    decreases count
  {
    if count == 0 then Returned(([], position)) else
    var (stamp, next) :- ReadTimeStamp(octets, position);
    var (rest, end) :- ReadStamps(octets, next, count - 1);
    Returned(([stamp] + rest, end))
  }

  /** Numbers up to and including the next closing tag. */
  function ReadNumbers(octets: Bytes, position: nat): (r: Outcome<(seq<nat>, nat)>)
    ensures r.Returned? ==> position < r.value.1
    decreases Left(octets, position)
  {
    var t :- ReadTag(octets, position);
    if t.kind == Close then Returned(([], t.next)) else
    var (rest, end) :- ReadNumbers(octets, t.next);
    Returned(([FromBytes(t.body)] + rest, end))
  }

  function OutsideList(p: Progress, t: Tag): Progress {
    if t.kind == Open && t.number == 0 then p.(inList := true)
    else if t.kind == Value && t.isContext && t.number == 1 then p.(moreEvents := Some(FromBytes(t.body) != 0))
    else p
  }

  function ParseSummaries(octets: Bytes, position: nat, p: Progress): Outcome<(seq<Summary>, Option<bool>)>
    decreases Left(octets, position)
  {
    if position >= |octets| then Returned((p.summaries, p.moreEvents)) else
    var t :- ReadTag(octets, position);
    if !p.inList then ParseSummaries(octets, t.next, OutsideList(p, t))
    else if t.kind == Close && t.number == 0 then ParseSummaries(octets, t.next, p.(inList := false))
    else if t.kind == Value && t.isContext then
      var q :- TakeValue(p, t.number, t.body);
      ParseSummaries(octets, t.next, q)
    else if t.kind == Open && t.number == 3 then
      var (stamps, end) :- ReadStamps(octets, t.next, 3);
      if p.summaries == [] then Raised(TypeError) else
      var close :- ReadTag(octets, end);
      ParseSummaries(octets, close.next, Replace(p, Last(p).(timeStamps := Some(stamps))))
    else if t.kind == Open && t.number == 6 then
      var (numbers, end) :- ReadNumbers(octets, t.next);
      if p.summaries == [] then Raised(TypeError) else
      ParseSummaries(octets, end, Replace(p, Last(p).(priorities := Some(numbers))))
    else ParseSummaries(octets, t.next, p)
  }

  const NONE_READ := Progress([], None, false)

  /** `parse_event_summaries`, loops and all. */
  method ParseEventSummaries(apdu: Bytes) returns (r: Outcome<(seq<Summary>, Option<bool>)>)
    ensures r == ParseSummaries(Slice(apdu, 3, |apdu|), 0, NONE_READ)
  {
    hide ReadTag, ReadTimeStamp, TakeValue, FromBytes, Slice, ReadStamps, ReadNumbers, OutsideList;
    var octets := Slice(apdu, 3, |apdu|);
    var p := NONE_READ;
    var position: nat := 0;
    while position < |octets|
      invariant ParseSummaries(octets, 0, NONE_READ) == ParseSummaries(octets, position, p)
      decreases Left(octets, position)
    {
      var read := ReadTag(octets, position);
      if read.Raised? {
        return Raised(read.error);
      }
      var t := read.value;
      position := t.next;
      if !p.inList {
        p := OutsideList(p, t);
      } else if t.kind == Close && t.number == 0 {
        p := p.(inList := false);
      } else if t.kind == Value && t.isContext {
        var q := TakeValue(p, t.number, t.body);
        if q.Raised? {
          return Raised(q.error);
        }
        p := q.value;
      } else if t.kind == Open && t.number == 3 {
        var stamps := CollectStamps(octets, position);
        if stamps.Raised? {
          return Raised(stamps.error);
        }
        if p.summaries == [] {
          return Raised(TypeError);
        }
        var close := ReadTag(octets, stamps.value.1);
        if close.Raised? {
          return Raised(close.error);
        }
        p := Replace(p, Last(p).(timeStamps := Some(stamps.value.0)));
        position := close.value.next;
      } else if t.kind == Open && t.number == 6 {
        var numbers := CollectNumbers(octets, position);
        if numbers.Raised? {
          return Raised(numbers.error);
        }
        if p.summaries == [] {
          return Raised(TypeError);
        }
        p := Replace(p, Last(p).(priorities := Some(numbers.value.0)));
        position := numbers.value.1;
      }
    }
    return Returned((p.summaries, p.moreEvents));
  }

  method CollectStamps(octets: Bytes, start: nat) returns (r: Outcome<(seq<Option<Stamp>>, nat)>)
    ensures r == ReadStamps(octets, start, 3)
  {
    hide ReadTimeStamp;
    var stamps: seq<Option<Stamp>> := [];
    var position := start;
    AfterNothing(ReadStamps(octets, start, 3));
    for i := 0 to 3
      invariant start <= position
      invariant ReadStamps(octets, start, 3) == After(stamps, ReadStamps(octets, position, 3 - i))
    {
      var s := ReadTimeStamp(octets, position);
      if s.Raised? {
        return Raised(s.error);
      }
      position := s.value.1;
      AfterOne(stamps, s.value.0, ReadStamps(octets, position, 2 - i));
      stamps := stamps + [s.value.0];
    }
    assert stamps + [] == stamps;
    return Returned((stamps, position));
  }

  method CollectNumbers(octets: Bytes, start: nat) returns (r: Outcome<(seq<nat>, nat)>)
    ensures r == ReadNumbers(octets, start)
  {
    hide ReadTag, FromBytes;
    var numbers: seq<nat> := [];
    var position := start;
    AfterNothing(ReadNumbers(octets, start));
    while true
      invariant start <= position
      invariant ReadNumbers(octets, start) == After(numbers, ReadNumbers(octets, position))
      decreases Left(octets, position)
    {
      var t := ReadTag(octets, position);
      if t.Raised? {
        return Raised(t.error);
      }
      position := t.value.next;
      if t.value.kind == Close {
        assert numbers + [] == numbers;
        return Returned((numbers, position));
      }
      AfterOne(numbers, FromBytes(t.value.body), ReadNumbers(octets, position));
      numbers := numbers + [FromBytes(t.value.body)];
    }
  }

  function After<T>(done: seq<T>, rest: Outcome<(seq<T>, nat)>): Outcome<(seq<T>, nat)> {
    match rest
    case Raised(e) => Raised(e)
    case Returned((v, n)) => Returned((done + v, n))
  }

  lemma AfterNothing<T>(rest: Outcome<(seq<T>, nat)>)
    ensures After([], rest) == rest
  {
    if rest.Returned? {
      assert [] + rest.value.0 == rest.value.0;
    }
  }

  lemma AfterOne<T>(done: seq<T>, x: T, rest: Outcome<(seq<T>, nat)>)
    ensures After(done + [x], rest)
            == match rest case Raised(e) => Raised(e) case Returned((v, n)) => Returned((done + ([x] + v), n))
  {
    if rest.Returned? {
      assert done + [x] + rest.value.0 == done + ([x] + rest.value.0);
    }
  }

  // -- the reference encoding ---------------------------------------------------------

  /** BACnetTimeStamp: time [0], sequence-number [1] or dateTime [2]. */
  datatype TimeStamp = Time(octets: Bytes) | SequenceNumber(number: U32) | DateAndTime(stamp: Stamp)

  datatype EventSummary = EventSummary(
    target: ObjectId, eventState: U32, ackedTransitions: seq<bool>, timeStamps: seq<TimeStamp>, notifyType: U32,
    eventEnable: seq<bool>, priorities: seq<U32>)

  predicate ValidStamp(t: TimeStamp) {
    match t
    case Time(octets) => |octets| == 4
    case SequenceNumber(_) => true
    case DateAndTime(stamp) => |stamp.0| == 4 && |stamp.1| == 4
  }

  predicate ValidSummary(s: EventSummary) {
    && |s.ackedTransitions| == 3 && |s.eventEnable| == 3 && |s.timeStamps| == 3
    && forall i | 0 <= i < |s.timeStamps| :: ValidStamp(s.timeStamps[i])
  }

  function EncodeStamp(t: TimeStamp): Bytes
    requires ValidStamp(t)
  {
    match t
    case Time(octets) => Primitive(0, true, octets)
    case SequenceNumber(number) => ContextUnsigned(1, number)
    case DateAndTime(stamp) => Enclosed(2, Primitive(10, false, stamp.0) + Primitive(11, false, stamp.1))
  }

  function EncodeStamps(ts: seq<TimeStamp>): Bytes
    requires forall i | 0 <= i < |ts| :: ValidStamp(ts[i])
  {
    if ts == [] then [] else EncodeStamp(ts[0]) + EncodeStamps(ts[1..])
  }

  function EncodeNumbers(ns: seq<U32>): Bytes {
    if ns == [] then [] else ApplicationUnsigned(ns[0]) + EncodeNumbers(ns[1..])
  }

  /** A bit string of three transitions. */
  function Transitions(tag: TagNumber, bits: seq<bool>): Bytes
    requires |bits| == 3
  {
    Primitive(tag, true, BitBody(bits))
  }

  function EncodeHead(s: EventSummary): Bytes
    requires ValidSummary(s)
  {
    ContextObjectId(0, s.target) + (ContextUnsigned(1, s.eventState) + Transitions(2, s.ackedTransitions))
  }

  function EncodeTail(s: EventSummary): Bytes
    requires ValidSummary(s)
  {
    ContextUnsigned(4, s.notifyType) + (Transitions(5, s.eventEnable) + Enclosed(6, EncodeNumbers(s.priorities)))
  }

  function EncodeSummary(s: EventSummary): Bytes
    requires ValidSummary(s)
  {
    EncodeHead(s) + (Enclosed(3, EncodeStamps(s.timeStamps)) + EncodeTail(s))
  }

  function EncodeSummaries(ss: seq<EventSummary>): Bytes
    requires forall i | 0 <= i < |ss| :: ValidSummary(ss[i])
  {
    if ss == [] then [] else EncodeSummary(ss[0]) + EncodeSummaries(ss[1..])
  }

  function EventInformationAck(invokeId: Octet, ss: seq<EventSummary>, more: bool): Bytes
    requires forall i | 0 <= i < |ss| :: ValidSummary(ss[i])
  {
    [0x30, invokeId, SERVICE_GET_EVENT_INFORMATION]
    + (Enclosed(0, EncodeSummaries(ss)) + Primitive(1, true, [if more then 1 else 0]))
  }

  // -- what the decoder should recover ---------------------------------------------------

  /** Only the dateTime form of a time stamp is kept. */
  function KeptStamp(t: TimeStamp): Option<Stamp> { if t.DateAndTime? then Some(t.stamp) else None }

  function KeptStamps(ts: seq<TimeStamp>): seq<Option<Stamp>> {
    if ts == [] then [] else [KeptStamp(ts[0])] + KeptStamps(ts[1..])
  }

  function WidenAll(ns: seq<U32>): seq<nat> {
    if ns == [] then [] else [ns[0] as nat] + WidenAll(ns[1..])
  }

  function ExpectedSummary(s: EventSummary): Summary {
    Summary(s.target, Some(s.eventState), Some(s.ackedTransitions), Some(KeptStamps(s.timeStamps)),
            Some(s.notifyType), Some(s.eventEnable), Some(WidenAll(s.priorities)))
  }

  function ExpectedSummaries(ss: seq<EventSummary>): seq<Summary> {
    if ss == [] then [] else [ExpectedSummary(ss[0])] + ExpectedSummaries(ss[1..])
  }

  // -- what is passed over -------------------------------------------------------------------

  /** Outside the list: every primitive but [1], every opening tag but [0], every closing tag. */
  lemma OutsidePassedOver(tag: TagNumber, isContext: bool, body: Bytes, a: Bytes, at: nat, p: Progress)
    requires !p.inList
    ensures |body| < 0x1_0000 && tag != 1
            && Occurs(Primitive(tag, isContext, body), a, at) ==>
              ParseSummaries(a, at, p) == ParseSummaries(a, at + |Primitive(tag, isContext, body)|, p)
    ensures tag != 0 && Occurs(Opening(tag), a, at) ==> ParseSummaries(a, at, p) == ParseSummaries(a, at + 1, p)
    ensures Occurs(Closing(tag), a, at) ==> ParseSummaries(a, at, p) == ParseSummaries(a, at + 1, p)
  {
    hide ReadTag, Primitive, TakeValue, ReadStamps, ReadNumbers;
    TagsThere(tag, isContext, body, a, at);
  }

  /** Inside the list: every application primitive, the context primitives [3] and from [6] on, every opening tag but
      [3] and [6], every closing tag but [0]. */
  lemma InsidePassedOver(tag: TagNumber, isContext: bool, body: Bytes, a: Bytes, at: nat, p: Progress)
    requires p.inList
    ensures |body| < 0x1_0000 && (if isContext then tag == 3 || tag > 5 else tag != 1)
            && Occurs(Primitive(tag, isContext, body), a, at) ==>
              ParseSummaries(a, at, p) == ParseSummaries(a, at + |Primitive(tag, isContext, body)|, p)
    ensures tag != 3 && tag != 6 && Occurs(Opening(tag), a, at) ==>
              ParseSummaries(a, at, p) == ParseSummaries(a, at + 1, p)
    ensures tag != 0 && Occurs(Closing(tag), a, at) ==> ParseSummaries(a, at, p) == ParseSummaries(a, at + 1, p)
  {
    hide ReadTag, Primitive, ReadStamps, ReadNumbers, FromBytes;
    TagsThere(tag, isContext, body, a, at);
  }

  lemma TagsThere(tag: TagNumber, isContext: bool, body: Bytes, a: Bytes, at: nat)
    ensures |body| < 0x1_0000 && (isContext || tag != 1) && Occurs(Primitive(tag, isContext, body), a, at) ==>
              at < |a| && ReadTag(a, at)
                          == Returned(Tag(tag, isContext, Value, body, at + |Primitive(tag, isContext, body)|))
    ensures Occurs(Opening(tag), a, at) ==> at < |a| && ReadTag(a, at) == Returned(Tag(tag, true, Open, [], at + 1))
    ensures Occurs(Closing(tag), a, at) ==> at < |a| && ReadTag(a, at) == Returned(Tag(tag, true, Close, [], at + 1))
  {
    hide ReadTag, Primitive;
    if |body| < 0x1_0000 && (isContext || tag != 1) && Occurs(Primitive(tag, isContext, body), a, at) {
      ReadPrimitiveAt(tag, isContext, body, a, at);
    }
    if Occurs(Opening(tag), a, at) {
      OccursAt(Opening(tag), a, at, 0);
      ReadOpening(tag, a, at);
    }
    if Occurs(Closing(tag), a, at) {
      OccursAt(Closing(tag), a, at, 0);
      ReadClosing(tag, a, at);
    }
  }

  // -- the round trip -----------------------------------------------------------------------

  lemma ReadOneStamp(t: TimeStamp, a: Bytes, at: nat)
    requires ValidStamp(t) && Occurs(EncodeStamp(t), a, at)
    ensures ReadTimeStamp(a, at) == Returned((KeptStamp(t), at + |EncodeStamp(t)|))
  {
    hide ReadTag, Occurs, Primitive, FromBytes, UnsignedOctets, Enclosed;
    match t
    case Time(octets) => ReadPrimitiveAt(0, true, octets, a, at);
    case SequenceNumber(number) => ReadPrimitiveAt(1, true, UnsignedOctets(number), a, at);
    case DateAndTime(stamp) => ReadStamp(stamp, a, at);
  }

  lemma {:induction false} ReadEncodedStamps(ts: seq<TimeStamp>, a: Bytes, at: nat)
    requires (forall i | 0 <= i < |ts| :: ValidStamp(ts[i])) && Occurs(EncodeStamps(ts), a, at)
    ensures ReadStamps(a, at, |ts|) == Returned((KeptStamps(ts), at + |EncodeStamps(ts)|))
    decreases |ts|
  {
    hide Occurs, EncodeStamp, ReadTimeStamp, KeptStamp, ValidStamp;
    if ts != [] {
      OccursSplit(EncodeStamp(ts[0]), EncodeStamps(ts[1..]), a, at);
      ReadOneStamp(ts[0], a, at);
      ReadEncodedStamps(ts[1..], a, at + |EncodeStamp(ts[0])|);
    }
  }

  lemma {:induction false} ReadEncodedNumbers(ns: seq<U32>, a: Bytes, at: nat)
    requires Occurs(EncodeNumbers(ns), a, at)
    requires ReadTag(a, at + |EncodeNumbers(ns)|)
             == Returned(Tag(6, true, Close, [], at + |EncodeNumbers(ns)| + 1))
    ensures ReadNumbers(a, at) == Returned((WidenAll(ns), at + |EncodeNumbers(ns)| + 1))
    decreases |ns|
  {
    hide ReadTag, Occurs, Primitive, FromBytes, UnsignedOctets;
    if ns != [] {
      var first := ApplicationUnsigned(ns[0]);
      OccursSplit(first, EncodeNumbers(ns[1..]), a, at);
      ReadPrimitiveAt(2, false, UnsignedOctets(ns[0]), a, at);
      UnsignedRoundTrip(ns[0]);
      ReadEncodedNumbers(ns[1..], a, at + |first|);
    }
  }

  lemma TakeField(tag: TagNumber, body: Bytes, a: Bytes, at: nat, p: Progress, q: Progress)
    requires |body| < 0x1_0000 && Occurs(Primitive(tag, true, body), a, at)
    requires p.inList && TakeValue(p, tag, body) == Returned(q)
    ensures ParseSummaries(a, at, p) == ParseSummaries(a, at + |Primitive(tag, true, body)|, q)
  {
    hide ReadTag, Occurs, Primitive, TakeValue;
    ReadPrimitiveAt(tag, true, body, a, at);
    assert at < |a|;
  }

  /** Progress with `s` as the current summary after those done. */
  function With(done: seq<Summary>, s: Summary): Progress { Progress(done + [s], None, true) }

  lemma ReplaceWith(done: seq<Summary>, s: Summary, t: Summary)
    ensures With(done, s).summaries != [] && Last(With(done, s)) == s
    ensures Replace(With(done, s), t) == With(done, t)
  {
    assert (done + [s])[|done| := t] == done + [t];
  }

  lemma TakeHead(s: EventSummary, a: Bytes, at: nat, done: seq<Summary>)
    requires ValidSummary(s) && Occurs(EncodeHead(s), a, at)
    ensures ParseSummaries(a, at, Progress(done, None, true))
            == ParseSummaries(a, at + |EncodeHead(s)|,
                              With(done, Begun(s.target).(eventState := Some(s.eventState),
                                                           ackedTransitions := Some(s.ackedTransitions))))
  {
    hide Occurs, Primitive, ObjectIdBytes, UnsignedOctets, FromBytes, UnpackObjectId, DecodeBits, BitBody,
         ParseSummaries, Last, Replace;
    var o, e, b := ContextObjectId(0, s.target), ContextUnsigned(1, s.eventState), Transitions(2, s.ackedTransitions);
    OccursSplit(o, e + b, a, at);
    OccursSplit(e, b, a, at + |o|);
    ObjectIdRoundTrip(s.target);
    UnsignedRoundTrip(s.eventState);
    BitsRoundTrip(s.ackedTransitions);
    ShortBitBody(s.ackedTransitions);
    IdLength(s.target);
    var s0 := Begun(s.target);
    var s1 := s0.(eventState := Some(s.eventState as nat));
    var s2 := s1.(ackedTransitions := Some(s.ackedTransitions));
    ReplaceWith(done, s0, s1);
    ReplaceWith(done, s1, s2);
    TakeField(0, ObjectIdBytes(s.target), a, at, Progress(done, None, true), With(done, s0));
    TakeField(1, UnsignedOctets(s.eventState), a, at + |o|, With(done, s0), With(done, s1));
    TakeField(2, BitBody(s.ackedTransitions), a, at + |o| + |e|, With(done, s1), With(done, s2));
  }

  lemma TakeStamps(s: EventSummary, a: Bytes, at: nat, done: seq<Summary>, c: Summary)
    requires ValidSummary(s) && Occurs(Enclosed(3, EncodeStamps(s.timeStamps)), a, at)
    ensures ParseSummaries(a, at, With(done, c))
            == ParseSummaries(a, at + |Enclosed(3, EncodeStamps(s.timeStamps))|,
                              With(done, c.(timeStamps := Some(KeptStamps(s.timeStamps)))))
  {
    hide Occurs, ReadTag, EncodeStamps, ReadStamps, KeptStamps, TakeValue, Enclosed, Last, Replace;
    ReadEnclosed(3, EncodeStamps(s.timeStamps), a, at);
    ReadEncodedStamps(s.timeStamps, a, at + 1);
    EnclosedLength(3, EncodeStamps(s.timeStamps));
    ReplaceWith(done, c, c.(timeStamps := Some(KeptStamps(s.timeStamps))));
  }

  lemma TakeTail(s: EventSummary, a: Bytes, at: nat, done: seq<Summary>, c: Summary)
    requires ValidSummary(s) && Occurs(EncodeTail(s), a, at)
    ensures ParseSummaries(a, at, With(done, c))
            == ParseSummaries(a, at + |EncodeTail(s)|,
                              With(done, c.(notifyType := Some(s.notifyType), eventEnable := Some(s.eventEnable),
                                            priorities := Some(WidenAll(s.priorities)))))
  {
    hide Occurs, Primitive, UnsignedOctets, FromBytes, DecodeBits, BitBody, ParseSummaries, Last, Replace, Enclosed;
    var n, b := ContextUnsigned(4, s.notifyType), Transitions(5, s.eventEnable);
    var ns := Enclosed(6, EncodeNumbers(s.priorities));
    OccursSplit(n, b + ns, a, at);
    OccursSplit(b, ns, a, at + |n|);
    UnsignedRoundTrip(s.notifyType);
    BitsRoundTrip(s.eventEnable);
    ShortBitBody(s.eventEnable);
    var c1 := c.(notifyType := Some(s.notifyType as nat));
    var c2 := c1.(eventEnable := Some(s.eventEnable));
    ReplaceWith(done, c, c1);
    ReplaceWith(done, c1, c2);
    TakeField(4, UnsignedOctets(s.notifyType), a, at, With(done, c), With(done, c1));
    TakeField(5, BitBody(s.eventEnable), a, at + |n|, With(done, c1), With(done, c2));
    TakePriorities(s.priorities, a, at + |n| + |b|, done, c2);
  }

  lemma TakePriorities(ns: seq<U32>, a: Bytes, at: nat, done: seq<Summary>, c: Summary)
    requires Occurs(Enclosed(6, EncodeNumbers(ns)), a, at)
    ensures ParseSummaries(a, at, With(done, c))
            == ParseSummaries(a, at + |Enclosed(6, EncodeNumbers(ns))|,
                              With(done, c.(priorities := Some(WidenAll(ns)))))
  {
    hide Occurs, ReadTag, EncodeNumbers, ReadNumbers, WidenAll, TakeValue, Enclosed, Last, Replace;
    ReadEnclosed(6, EncodeNumbers(ns), a, at);
    ReadEncodedNumbers(ns, a, at + 1);
    EnclosedLength(6, EncodeNumbers(ns));
    ReplaceWith(done, c, c.(priorities := Some(WidenAll(ns))));
  }

  lemma TakeSummary(s: EventSummary, a: Bytes, at: nat, done: seq<Summary>)
    requires ValidSummary(s) && Occurs(EncodeSummary(s), a, at)
    ensures ParseSummaries(a, at, Progress(done, None, true))
            == ParseSummaries(a, at + |EncodeSummary(s)|, Progress(done + [ExpectedSummary(s)], None, true))
  {
    hide Occurs, EncodeHead, EncodeTail, Enclosed, EncodeStamps, ParseSummaries, KeptStamps, WidenAll;
    var stamps := Enclosed(3, EncodeStamps(s.timeStamps));
    OccursSplit(EncodeHead(s), stamps + EncodeTail(s), a, at);
    OccursSplit(stamps, EncodeTail(s), a, at + |EncodeHead(s)|);
    TakeHead(s, a, at, done);
    var c := Begun(s.target).(eventState := Some(s.eventState as nat), ackedTransitions := Some(s.ackedTransitions));
    TakeStamps(s, a, at + |EncodeHead(s)|, done, c);
    TakeTail(s, a, at + |EncodeHead(s)| + |stamps|, done, c.(timeStamps := Some(KeptStamps(s.timeStamps))));
  }

  lemma {:induction false} TakeSummaries(ss: seq<EventSummary>, a: Bytes, at: nat, done: seq<Summary>)
    requires (forall i | 0 <= i < |ss| :: ValidSummary(ss[i])) && Occurs(EncodeSummaries(ss), a, at)
    ensures ParseSummaries(a, at, Progress(done, None, true))
            == ParseSummaries(a, at + |EncodeSummaries(ss)|, Progress(done + ExpectedSummaries(ss), None, true))
    decreases |ss|
  {
    hide Occurs, EncodeSummary, ParseSummaries, ExpectedSummary, ValidSummary;
    if ss == [] {
      assert done + ExpectedSummaries(ss) == done;
    } else {
      OccursSplit(EncodeSummary(ss[0]), EncodeSummaries(ss[1..]), a, at);
      TakeSummary(ss[0], a, at, done);
      TakeSummaries(ss[1..], a, at + |EncodeSummary(ss[0])|, done + [ExpectedSummary(ss[0])]);
      assert done + [ExpectedSummary(ss[0])] + ExpectedSummaries(ss[1..]) == done + ExpectedSummaries(ss);
    }
  }

  lemma TakeMore(more: bool, a: Bytes, at: nat, summaries: seq<Summary>)
    requires Occurs(Primitive(1, true, [if more then 1 else 0]), a, at)
    requires |a| == at + |Primitive(1, true, [if more then 1 else 0])|
    ensures ParseSummaries(a, at, Progress(summaries, None, false)) == Returned((summaries, Some(more)))
  {
    hide ReadTag, FromBytes, Primitive, Occurs;
    var body: Bytes := [if more then 1 else 0];
    ReadPrimitiveAt(1, true, body, a, at);
    FromBytes1(body[0]);
    assert at < |a|;
  }

  /** Clause 13.12: for every list of summaries, each time stamp in any of its three forms, the decoder
      returns the same list and the same more-events flag. */
  lemma EventSummariesRoundTrip(invokeId: Octet, ss: seq<EventSummary>, more: bool)
    requires forall i | 0 <= i < |ss| :: ValidSummary(ss[i])
    ensures var apdu := EventInformationAck(invokeId, ss, more);
            ParseSummaries(Slice(apdu, 3, |apdu|), 0, NONE_READ) == Returned((ExpectedSummaries(ss), Some(more)))
  {
    hide ReadTag, Occurs, EncodeSummaries, ExpectedSummaries, Enclosed, Primitive, TakeValue, ReadStamps, ReadNumbers,
         ValidSummary;
    var apdu := EventInformationAck(invokeId, ss, more);
    var list, flag := Enclosed(0, EncodeSummaries(ss)), Primitive(1, true, [if more then 1 else 0]);
    var a := list + flag;
    assert Slice(apdu, 3, |apdu|) == a;
    OccursIn([], a, []);
    assert [] + a + [] == a;
    OccursSplit(list, flag, a, 0);
    ReadEnclosed(0, EncodeSummaries(ss), a, 0);
    EnclosedLength(0, EncodeSummaries(ss));
    TakeSummaries(ss, a, 1, []);
    assert [] + ExpectedSummaries(ss) == ExpectedSummaries(ss);
    assert ParseSummaries(a, 0, NONE_READ) == ParseSummaries(a, 1, Progress([], None, true));
    TakeMore(more, a, |list|, ExpectedSummaries(ss));
  }
}
