/** Which failures escape the parsers. They catch IndexError and struct.error, but an application BOOLEAN
    whose declared length is above 255 makes `read_tag` raise ValueError. */
module Totality {
  import opened Octets
  import opened Tags
  import opened Constructed
  import opened Network
  import opened Requests
  import opened Multiple
  import opened Discovery

  /** An application BOOLEAN tag that declares a length above 255. */
  predicate Oversize(data: Bytes, k: nat) {
    var h := ReadHead(data, k);
    h.Returned? && !h.value.isContext && h.value.number == 1 &&
    var l := ReadLength(data, h.value.after, h.value.lengthValue);
    l.Returned? && l.value.0 > 255
  }

  lemma ValueErrorIsOversize(data: Bytes, k: nat)
    ensures ReadTag(data, k) == Raised(ValueError) <==> Oversize(data, k)
    ensures ReadTag(data, k).Raised? ==> ReadTag(data, k).error != TypeError
  {
    hide FromBytes;
  }

  /** Tag by tag from `i` on: the first position where no tag can be read. The end of the data is one. */
  function FirstBad(data: Bytes, i: nat): (k: nat)
    ensures i <= k && ReadTag(data, k).Raised?
    decreases Left(data, i)
  {
    var t := ReadTag(data, i);
    if t.Raised? then i else FirstBad(data, t.value.next)
  }

  /** A scan that fails fails on the first unreadable tag. */
  lemma {:induction false} ScanFails(data: Bytes, i: nat, depth: nat)
    requires depth > 0
    ensures Scan(data, i, depth).Raised? ==> Scan(data, i, depth) == Raised(ReadTag(data, FirstBad(data, i)).error)
    ensures Scan(data, i, depth).Returned? ==>
              FirstBad(data, i) == FirstBad(data, ReadTag(data, Scan(data, i, depth).value).value.next)
    decreases Left(data, i)
  {
    hide ReadTag;
    var t := ReadTag(data, i);
    if t.Returned? {
      match t.value.kind
      case Open => ScanFails(data, t.value.next, depth + 1);
      case Value => ScanFails(data, t.value.next, depth);
      case Close =>
        if depth > 1 {
          ScanFails(data, t.value.next, depth - 1);
        }
    }
  }

  // -- the WriteProperty request -----------------------------------------------------------

  /** Where the tag after the one at `i` starts, if that one can be read. */
  function TagEnd(data: Bytes, i: Option<nat>): Option<nat> {
    if i.None? || ReadTag(data, i.value).Raised? then None else Some(ReadTag(data, i.value).value.next)
  }

  /** Past the array index, if there is one at `i`. */
  function PastIndex(data: Bytes, i: Option<nat>): Option<nat> {
    if i.None? || ReadTag(data, i.value).Raised? then i else
    var t := ReadTag(data, i.value).value;
    if t.number == 2 && t.kind == Value then Some(t.next) else i
  }

  /** Where the value of a WriteProperty starts: after the tags of the object, the property, the array index if
      it is there, and one more. */
  function ValueStart(apdu: Bytes): Option<nat> {
    TagEnd(apdu, PastIndex(apdu, TagEnd(apdu, TagEnd(apdu, Some(4)))))
  }

  /** The first tag, if it is readable, has the four octets of an object identifier. */
  predicate IdentifierOk(apdu: Bytes) {
    ReadTag(apdu, 4).Returned? ==> |ReadTag(apdu, 4).value.body| == 4
  }

  /** What a caller can check: the request is a WriteProperty whose first unreadable tag is an oversize
      BOOLEAN, and if its value is complete that is the tag right after it, the priority. */
  ghost predicate Escapes(apdu: Bytes) {
    && |apdu| >= 4 && apdu[0] / 16 == 0 && apdu[3] == SERVICE_WRITE_PROPERTY && IdentifierOk(apdu)
    && Oversize(apdu, FirstBad(apdu, 4))
    && (ValueStart(apdu).Some? ==>
          forall close: nat | BalancedUpTo(apdu, ValueStart(apdu).value, close) ::
            FirstBad(apdu, 4) == ReadTag(apdu, close).value.next)
  }

  lemma TargetFails(apdu: Bytes)
    requires IdentifierOk(apdu)
    ensures ParseTarget(apdu).Raised? ==> ParseTarget(apdu) == Raised(ReadTag(apdu, FirstBad(apdu, 4)).error)
    ensures ParseTarget(apdu).Returned? ==> FirstBad(apdu, 4) == FirstBad(apdu, ParseTarget(apdu).value.2)
    ensures TagEnd(apdu, TagEnd(apdu, Some(4)))
            == if ParseTarget(apdu).Returned? then Some(ParseTarget(apdu).value.2) else None
  {
    hide ReadTag, FromBytes;
  }

  lemma OpeningFails(apdu: Bytes, position: nat)
    ensures var r := ParseIndexAndOpening(apdu, position);
            && (r.Raised? ==> r == Raised(ReadTag(apdu, FirstBad(apdu, position)).error))
            && (r.Returned? ==> FirstBad(apdu, position) == FirstBad(apdu, r.value.1))
            && TagEnd(apdu, PastIndex(apdu, Some(position))) == if r.Returned? then Some(r.value.1) else None
  {
    hide ReadTag, FromBytes;
  }

  /** `parse_write_property_request` returns None or a request on every octet string but these. */
  lemma WriteParserTotal(apdu: Bytes)
    ensures ParseWrite(apdu).Returned? <==> !Escapes(apdu)
    ensures ParseWrite(apdu).Raised? ==> ParseWrite(apdu) == Raised(ValueError)
  {
    hide ReadTag, ParseTarget, ParseIndexAndOpening, Scan, Oversize, FromBytes, BalancedUpTo;
    var k := FirstBad(apdu, 4);
    ValueErrorIsOversize(apdu, k);
    if !IdentifierOk(apdu) {
      BadIdentifier(apdu);
    } else {
      TargetFails(apdu);
      var target := ParseTarget(apdu);
      if target.Returned? {
        OpeningFails(apdu, target.value.2);
        var start := ParseIndexAndOpening(apdu, target.value.2);
        if start.Returned? {
          ScanFails(apdu, start.value.1, 1);
          ScanIsGrammar(apdu, start.value.1);
          var body := BodyOf(apdu, start.value.1);
          if body.Returned? {
            ValueErrorIsOversize(apdu, body.value.1);
            if body.value.1 >= |apdu| {
              NotOversizeAtEnd(apdu, body.value.1);
            }
          }
        }
      }
    }
  }

  lemma BadIdentifier(apdu: Bytes)
    requires !IdentifierOk(apdu)
    ensures ParseTarget(apdu) == Raised(StructError)
  {
    hide ReadTag, FromBytes;
  }

  lemma NotOversizeAtEnd(data: Bytes, k: nat)
    requires k >= |data|
    ensures !Oversize(data, k)
  {
  }

  /** It does happen: a request of eight octets. */
  lemma WriteParserEscape()
    ensures ParseWrite([0x00, 0x05, 0x01, 0x0F, 0x15, 254, 1, 0]) == Raised(ValueError)
  {
    LongBoolean([0x00, 0x05, 0x01, 0x0F, 0x15, 254, 1, 0], 4);
  }

  // -- the ReadProperty request, its ACK and the I-Am -----------------------------------------

  /** The first unreadable tag is an oversize BOOLEAN at `k`. */
  predicate FirstOversize(apdu: Bytes, k: Option<nat>) {
    k == Some(FirstBad(apdu, 4)) && Oversize(apdu, FirstBad(apdu, 4))
  }

  /** `parse_read_property_request` gives None or a request unless the object or the property is such a tag; with
      the array index, that may be one too. */
  lemma ReadParserTotal(apdu: Bytes)
    ensures var second := TagEnd(apdu, Some(4));
            var early := FirstOversize(apdu, Some(4)) || FirstOversize(apdu, second);
            && (ParseRead(apdu).Raised? <==> IdentifierOk(apdu) && early)
            && (ParseIndexedRead(apdu).Raised?
                <==> IdentifierOk(apdu) && (early || FirstOversize(apdu, TagEnd(apdu, second))))
            && (ParseRead(apdu).Raised? ==> ParseRead(apdu) == Raised(ValueError))
            && (ParseIndexedRead(apdu).Raised? ==> ParseIndexedRead(apdu) == Raised(ValueError))
  {
    hide ReadTag, ParseTarget, Oversize, FromBytes;
    var k := FirstBad(apdu, 4);
    ValueErrorIsOversize(apdu, k);
    if !IdentifierOk(apdu) {
      BadIdentifier(apdu);
    } else {
      TargetFails(apdu);
      TargetWhere(apdu);
      var target := ParseTarget(apdu);
      if target.Returned? && target.value.2 >= |apdu| {
        NotOversizeAtEnd(apdu, k);
      }
    }
  }

  lemma TargetWhere(apdu: Bytes)
    requires IdentifierOk(apdu)
    ensures var k := FirstBad(apdu, 4);
            if ParseTarget(apdu).Raised? then k == 4 || TagEnd(apdu, Some(4)) == Some(k)
            else k >= ParseTarget(apdu).value.2 && k != 4 && TagEnd(apdu, Some(4)) != Some(k)
                 && (k == ParseTarget(apdu).value.2 <==> ReadTag(apdu, ParseTarget(apdu).value.2).Raised?)
  {
    hide ReadTag, FromBytes;
    TargetFails(apdu);
    if ParseTarget(apdu).Returned? {
      FirstBadAt(apdu, ParseTarget(apdu).value.2);
    }
  }

  lemma FirstBadAt(data: Bytes, i: nat)
    ensures FirstBad(data, i) == i <==> ReadTag(data, i).Raised?
  {
    hide ReadTag;
  }

  /** The contents from `start` up to the closing tag, or, if there is none, the failure of the first tag that
      cannot be read. */
  ghost predicate IsContents(r: Outcome<Option<Bytes>>, a: Bytes, start: nat) {
    && (forall close: nat | BalancedUpTo(a, start, close) ::
          start <= close <= |a| && r == Returned(Some(a[start..close])))
    && ((forall close: nat :: !BalancedUpTo(a, start, close)) ==> r == Raised(ReadTag(a, FirstBad(a, start)).error))
  }

  lemma {:induction false} OpeningWhere(a: Bytes, i: nat)
    ensures match FirstOpening(a, i)
            case Raised(e) => FirstBad(a, i) < |a| && e == ReadTag(a, FirstBad(a, i)).error
            case Returned(None) => FirstBad(a, i) >= |a|
            case Returned(Some(start)) => FirstBad(a, i) == FirstBad(a, start)
    decreases Left(a, i)
  {
    hide ReadTag;
    if i < |a| && ReadTag(a, i).Returned? {
      OpeningWhere(a, ReadTag(a, i).value.next);
    }
  }

  /** `read_property_value`, exactly: what stands in the first [3] up to its closing tag, if it has one; None if there
      is no [3] and every tag can be read; else the failure of the first tag that cannot. */
  lemma ReadValueTotal(a: Bytes, i: nat)
    ensures match FirstOpening(a, i)
            case Returned(Some(start)) => IsContents(ReadValue(a, i), a, start)
            case _ =>
              ReadValue(a, i)
              == if FirstBad(a, i) >= |a| then Returned(None) else Raised(ReadTag(a, FirstBad(a, i)).error)
  {
    hide ReadTag, FirstOpening, BalancedUpTo, FirstBad;
    OpeningWhere(a, i);
    var opening := FirstOpening(a, i);
    if opening.Returned? && opening.value.Some? {
      var start := opening.value.value;
      ScanIsGrammar(a, start);
      ScanFails(a, start, 1);
      forall close: nat | BalancedUpTo(a, start, close)
        ensures start <= close <= |a| && ReadValue(a, i) == Returned(Some(a[start..close]))
      {
        assert Scan(a, start, 1) == Returned(close);
      }
    }
  }

  /** A declared length in four octets of which some are missing. */
  predicate LongLengthCut(data: Bytes, k: nat) {
    var h := ReadHead(data, k);
    h.Returned? && h.value.lengthValue == 5 && h.value.after < |data| < h.value.after + 5
    && data[h.value.after] == 255
  }

  /** `i_am_device_instance`, exactly: it raises on an I-Am whose first tag is an oversize BOOLEAN or has its length
      cut short, and on nothing else. */
  lemma AnnouncementTotal(apdu: Bytes)
    ensures var announces := |apdu| >= 7 && apdu[0] / 16 == 1 && apdu[1] == 0;
            && (DeviceInstance(apdu) == Raised(ValueError) <==> announces && Oversize(apdu, 2))
            && (DeviceInstance(apdu) == Raised(StructError) <==> announces && LongLengthCut(apdu, 2))
            && (DeviceInstance(apdu).Raised? ==> DeviceInstance(apdu).error in {ValueError, StructError})
  {
    hide FromBytes, Slice;
  }

  // -- the ReadPropertyMultiple-ACK ------------------------------------------------------

  /** Among the tags from `i` up to `k` there is a context [0] primitive that is not an object identifier, its
      contents not being four octets. The contents of [4] and [5] are skipped once an object was named. */
  predicate Wrong(a: Bytes, i: nat, k: nat, named: bool)
    decreases Left(a, i)
  {
    if i >= k || ReadTag(a, i).Raised? then false else
    var t := ReadTag(a, i).value;
    if t.kind == Value && t.isContext && t.number == 0 then |t.body| != 4 || Wrong(a, t.next, k, true)
    else if t.kind == Open && t.number in {4, 5} && named then
      BodyOf(a, t.next).Returned? && Wrong(a, BodyOf(a, t.next).value.1, k, named)
    else Wrong(a, t.next, k, named)
  }

  lemma {:induction false} ValuesOfBalanced(v: Bytes, i: nat, depth: nat)
    requires Walk(v, i, depth)
    ensures ApplicationValues(v, i).Returned?
    decreases Left(v, i)
  {
    hide ReadTag, FromBytes;
    if i < |v| {
      var t := ReadTag(v, i).value;
      match t.kind
      case Open => ValuesOfBalanced(v, t.next, depth + 1);
      case Close => ValuesOfBalanced(v, t.next, depth - 1);
      case Value => ValuesOfBalanced(v, t.next, depth);
    }
  }

  /** What the contents of [4] or [5] come to never fails. */
  lemma ResultReadable(a: Bytes, start: nat, number: nat)
    requires BodyOf(a, start).Returned?
    ensures ResultOf(number, BodyOf(a, start).value.0).Returned?
  {
    hide ReadTag, BodyOf, ApplicationValues, FromBytes, Walk;
    BodyIsBalanced(a, start);
    ValuesOfBalanced(BodyOf(a, start).value.0, 0, 0);
  }

  lemma AtValueFails(c: Cursor, t: Tag)
    ensures AtValue(c, t) == Raised(StructError) <==> t.number == 0 && |t.body| != 4
    ensures AtValue(c, t).Raised? ==> AtValue(c, t) == Raised(StructError)
    ensures AtValue(c, t).Returned? ==> (AtValue(c, t).value.current.Some? <==> t.number == 0 || c.current.Some?)
  {
    hide FromBytes, SetDefault;
  }

  /** If some tag is unreadable, the parse fails there, or at a wrong object identifier before it. */
  lemma {:induction false} ResultsFail(a: Bytes, k: nat, i: nat, c: Cursor)
    requires i <= k < |a| && FirstBad(a, i) == k
    ensures ParseResults(a, i, c)
            == Raised(if Wrong(a, i, k, c.current.Some?) then StructError else ReadTag(a, k).error)
    decreases Left(a, i)
  {
    hide ReadTag, BodyOf, ResultOf, AtValue;
    if i < k {
      var t := ReadTag(a, i).value;
      if t.kind == Value && t.isContext {
        AtValueFails(c, t);
        var d := AtValue(c, t);
        if d.Returned? {
          ResultsFail(a, k, t.next, d.value);
        }
      } else if t.kind == Open && (t.number == 4 || t.number == 5) && c.current.Some? {
        BodyFails(a, t.next);
        var body := BodyOf(a, t.next);
        if body.Returned? {
          ResultReadable(a, t.next, t.number);
          ResultsFail(a, k, body.value.1, Store(c, ResultOf(t.number, body.value.0).value));
        }
      } else {
        ResultsFail(a, k, t.next, c);
      }
    }
  }

  lemma FirstBadHere(a: Bytes, i: nat)
    requires FirstBad(a, i) == i
    ensures ReadTag(a, i).Raised?
  {
  }

  /** Nothing unreadable before the end: the parse returns or trips over an object identifier. */
  lemma {:induction false} ResultsReadable(a: Bytes, i: nat, c: Cursor)
    requires FirstBad(a, i) >= |a|
    ensures ParseResults(a, i, c).Raised? ==> ParseResults(a, i, c).error in {StructError, IndexError}
    decreases Left(a, i)
  {
    hide ReadTag, BodyOf, ResultOf, AtValue, Store;
    if i < |a| {
      var k := FirstBad(a, i);
      FirstBadHere(a, k);
      var t := ReadTag(a, i).value;
      if t.kind == Value && t.isContext {
        AtValueFails(c, t);
        var d := AtValue(c, t);
        if d.Returned? {
          ResultsReadable(a, t.next, d.value);
        }
      } else if t.kind == Open && (t.number == 4 || t.number == 5) && c.current.Some? {
        BodyFails(a, t.next);
        ReadPastEnd(a, k);
        var body := BodyOf(a, t.next);
        if body.Returned? {
          ResultReadable(a, t.next, t.number);
          ResultsReadable(a, body.value.1, Store(c, ResultOf(t.number, body.value.0).value));
        }
      } else {
        ResultsReadable(a, t.next, c);
      }
    }
  }

  lemma ReadPastEnd(a: Bytes, k: nat)
    requires k >= |a|
    ensures ReadTag(a, k) == Raised(IndexError)
  {
  }

  lemma BodyFails(a: Bytes, i: nat)
    ensures BodyOf(a, i).Raised? ==> BodyOf(a, i) == Raised(ReadTag(a, FirstBad(a, i)).error)
    ensures BodyOf(a, i).Returned? ==> FirstBad(a, i) == FirstBad(a, BodyOf(a, i).value.1)
  {
    hide ReadTag, Scan;
    ScanFails(a, i, 1);
  }

  /** What a caller can check: the answer is a ComplexACK that has no service octet, or one of
      ReadPropertyMultiple whose first unreadable tag is an oversize BOOLEAN with no wrong object identifier
      before it. */
  function AckEscape(answer: Option<Fields>): Option<PyError> {
    if answer.None? || answer.value.PduType() != Some(3) then None else
    var apdu := answer.value.payload;
    if |apdu| < 3 then Some(IndexError) else
    var k := FirstBad(apdu, 3);
    if apdu[2] == SERVICE_READ_PROPERTY_MULTIPLE && Oversize(apdu, k) && !Wrong(apdu, 3, k, false) then Some(ValueError)
    else None
  }

  /** `parse_read_property_multiple_ack` gives None or a map for every answer but these. */
  lemma AckParserTotal(answer: Option<Fields>)
    ensures match AckEscape(answer)
            case None => ParseMultipleAck(answer).Returned?
            case Some(e) => ParseMultipleAck(answer) == Raised(e)
  {
    hide ReadTag, ParseResults, Oversize, FirstBad, Wrong;
    if answer.Some? && answer.value.PduType() == Some(3) && |answer.value.payload| >= 3 {
      var apdu := answer.value.payload;
      var k := FirstBad(apdu, 3);
      ValueErrorIsOversize(apdu, k);
      if k < |apdu| {
        ResultsFail(apdu, k, 3, START);
      } else {
        NotOversizeAtEnd(apdu, k);
        ResultsReadable(apdu, 3, START);
      }
    }
  }

  lemma LongBoolean(a: Bytes, i: nat)
    requires i + 4 <= |a| && a[i] == 0x15 && a[i + 1] == 254 && a[i + 2] == 1 && a[i + 3] == 0
    ensures ReadTag(a, i) == Raised(ValueError)
  {
    assert a[i + 2..i + 4] == [1, 0];
    FromBytes2(1, 0);
  }
}
